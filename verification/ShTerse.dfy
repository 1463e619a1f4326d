/** How `|`, `&` and `;` bind: a command tree, written with parentheses only where the grammar needs them,
    is read back as that tree. A pipe binds tighter than `&`, which binds tighter than `;`; pipes and
    lists nest to the right; redirections of a simple command need no parentheses. */
module ShellTerse {
  import opened Basics
  import opened Shell
  import opened ShellRoundTrip

  // ---------------------------------------------------------------- what is written

  /** The items of a simple command with its redirections, if the tree is one. */
  function Flat(t: Tree): Option<seq<Item>> {
    match t
    case Run(args) => Some(AsItems(args))
    case Redirect(sub, f, input) => if Flat(sub).Some? then Some(Flat(sub).value + [To(f, input)]) else None
    case Piped(_, _) => None
    case Listed(_, _) => None
    case Background(_) => None
  }

  /** A tree made by an operator, without parentheses around it. */
  function Inner(t: Tree): string
    decreases t, 0
  {
    match t
    case Piped(l, r) => ExecText(l) + "|" + PipeText(r)
    case Listed(l, r) => BackText(l) + ";" + LineText(r)
    case Background(sub) => BackText(sub) + "&"
    case Run(_) => ""
    case Redirect(_, _, _) => ""
  }

  /** Where a command without operators must stand: a simple command, or a block and its redirections. */
  function ExecText(t: Tree): string
    decreases t, 1
  {
    if Flat(t).Some? then ItemsText(Flat(t).value)
    else if t.Redirect? then ExecText(t.sub) + Arrow(t.input) + t.file
    else "(" + Inner(t) + ")"
  }

  /** Where a pipeline may stand. */
  function PipeText(t: Tree): string
    decreases t, 2
  {
    if t.Piped? then Inner(t) else ExecText(t)
  }

  /** Where a pipeline with ampersands may stand. */
  function BackText(t: Tree): string
    decreases t, 3
  {
    if t.Background? then Inner(t) else PipeText(t)
  }

  /** Where any line may stand. */
  function LineText(t: Tree): string
    decreases t, 4
  {
    if t.Listed? then Inner(t) else BackText(t)
  }

  predicate Operator(t: Tree) { t.Piped? || t.Listed? || t.Background? }

  // ---------------------------------------------------------------- simple commands

  lemma {:induction false} BuildAppend(t: Tree, items: seq<Item>, f: string, input: bool)
    ensures Build(t, items + [To(f, input)]) == Redirect(Build(t, items), f, input)
    ensures Words(items + [To(f, input)]) == Words(items)
    decreases |items|
  {
    var more := items + [To(f, input)];
    if items == [] {
      assert more[1..] == [];
    } else {
      assert more[0] == items[0] && more[1..] == items[1..] + [To(f, input)];
      var x := items[0];
      BuildAppend(if x.Word? then Extend(t, x.w) else Redirect(t, x.file, x.input), items[1..], f, input);
    }
  }

  /** A simple command is what its items mean. */
  lemma {:induction false} FlatMeans(t: Tree)
    requires TreeFits(t) && Flat(t).Some?
    ensures Build(Run([]), Flat(t).value) == t && Words(Flat(t).value) < MAXARGS
    ensures forall i | 0 <= i < |Flat(t).value| :: ItemOk(Flat(t).value[i])
    decreases t
  {
    if t.Run? {
      AsItemsMeans(t.args, []);
      assert [] + t.args == t.args;
    } else {
      FlatMeans(t.sub);
      BuildAppend(Run([]), Flat(t.sub).value, t.file, t.input);
    }
  }

  // ---------------------------------------------------------------- the first character

  /** No NUL, and no blank in front. */
  predicate Clean(text: string) { '\0' !in text && (text != "" ==> !IsSpace(text[0])) }

  lemma ItemsClean(items: seq<Item>)
    requires forall i | 0 <= i < |items| :: ItemOk(items[i])
    ensures Clean(ItemsText(items))
  {
    ItemsNoNul(items);
    if items != [] {
      assert ItemOk(items[0]);
    }
  }

  lemma {:induction false} ExecClean(t: Tree)
    requires TreeFits(t)
    ensures Clean(ExecText(t))
    decreases t, 1
  {
    if Flat(t).Some? {
      FlatMeans(t);
      ItemsClean(Flat(t).value);
    } else if t.Redirect? {
      ExecClean(t.sub);
      assert '\0' !in t.file;
    } else {
      InnerClean(t);
    }
  }

  lemma {:induction false} InnerClean(t: Tree)
    requires TreeFits(t)
    ensures Clean(Inner(t))
    decreases t, 0
  {
    match t
    case Run(_) =>
    case Redirect(_, _, _) =>
    case Piped(l, r) => LineClean(l); LineClean(r);
    case Listed(l, r) => LineClean(l); LineClean(r);
    case Background(sub) => LineClean(sub);
  }

  lemma {:induction false} LineClean(t: Tree)
    requires TreeFits(t)
    ensures Clean(LineText(t)) && Clean(BackText(t)) && Clean(PipeText(t)) && Clean(ExecText(t))
    decreases t, 2
  {
    hide Clean;
    ExecClean(t);
    InnerClean(t);
    assert Clean(PipeText(t));
    assert Clean(BackText(t));
  }

  lemma CleanSolid(buf: CString, s: int, text: string)
    requires Clean(text) && Here(buf, s, text) && Solid(buf, s + |text|)
    ensures Solid(buf, s)
  {
    if text != "" {
      HereAt(buf, s, text, 0);
    }
  }

  // ---------------------------------------------------------------- reading

  /** parsepipe reads the text at s up to e as c. */
  ghost predicate ReadsPipe(buf: CString, s: int, c: Cmd, e: int) {
    Within(buf, s) && ParsePipe(buf, s) == Parsed(c, e) && Solid(buf, e)
  }

  /** After the pipeline at s, the loop over '&' of parseline comes to e with c. */
  ghost predicate ReadsBacks(buf: CString, s: int, c: Cmd, e: int) {
    && Within(buf, s) && Solid(buf, e) && ParsePipe(buf, s).Parsed?
    && ParseBacks(buf, ParsePipe(buf, s).cmd, ParsePipe(buf, s).s) == ParseBacks(buf, c, e)
  }

  /** parseexec reads a block at s, up to redirections at e. */
  ghost predicate ReadsBlock(buf: CString, s: int, c: Cmd, e: int) {
    Within(buf, s) && Solid(buf, e) && ParseExec(buf, s) == ParseRedirs(buf, c, e)
  }

  /** The character at e is one of these. */
  predicate Next(buf: CString, e: int, chars: string) { Within(buf, e) && At(buf, e) in chars }

  const AFTEREXEC := "\0|)&;"
  const AFTERPIPE := "\0)&;"
  const AFTERBLOCK := "\0|)&;<>"

  lemma NextSolid(buf: CString, e: int, chars: string)
    requires Next(buf, e, chars) && chars in {AFTEREXEC, AFTERPIPE, AFTERBLOCK}
    ensures Solid(buf, e)
  {
  }

  lemma SimpleExec(buf: CString, s: int, items: seq<Item>)
    requires Here(buf, s, ItemsText(items)) && (forall i | 0 <= i < |items| :: ItemOk(items[i]))
             && Words(items) < MAXARGS
    requires Stops(buf, s + |ItemsText(items)|)
    ensures ReadsExec(buf, s, Place(Exec([]), items, s), s + |ItemsText(items)|)
    ensures Deref(buf, Place(Exec([]), items, s)) == Build(Run([]), items)
  {
    hide Here, ItemsText, ItemOk, Place, Build, Words, ParseLine, ParseArgs, ParseRedirs, Skip;
    RestTrip(buf, Exec([]), 0, s, items);
    ItemsSolid(buf, s, items);
    SolidSkip(buf, s);
    ItemsStart(buf, s, items);
    assert !Peek(buf, s, "(");
    PlaceMeans(buf, Exec([]), items, s);
    assert Texts(buf, []) == [];
  }

  lemma ExecIsPipe(buf: CString, s: int, c: Cmd, e: int)
    requires ReadsExec(buf, s, c, e) && At(buf, e) != '|'
    ensures ReadsPipe(buf, s, c, e)
  {
    ExecToPipe(buf, s, c, e);
  }

  lemma PipeIsBacks(buf: CString, s: int, c: Cmd, e: int)
    requires ReadsPipe(buf, s, c, e)
    ensures ReadsBacks(buf, s, c, e)
  {
  }

  /** One '&' more. */
  lemma BackMore(buf: CString, s: int, c: Cmd, e: int)
    requires ReadsBacks(buf, s, c, e) && At(buf, e) == '&' && Solid(buf, e + 1)
    ensures ReadsBacks(buf, s, Back(c), e + 1)
  {
    hide ParsePipe;
    SolidSkip(buf, e);
    SymbolToken(buf, e);
    assert Peek(buf, e, "&");
  }

  /** The loop ends where there is no '&'. */
  lemma BacksDone(buf: CString, s: int, c: Cmd, e: int)
    requires ReadsBacks(buf, s, c, e) && At(buf, e) != '&'
    ensures ParsePipe(buf, s).Parsed? && ParseBacks(buf, ParsePipe(buf, s).cmd, ParsePipe(buf, s).s) == Parsed(c, e)
  {
    hide ParsePipe;
    SolidSkip(buf, e);
  }

  lemma BacksLine(buf: CString, s: int, c: Cmd, e: int)
    requires ReadsBacks(buf, s, c, e) && Ends(buf, e)
    ensures ParseLine(buf, s) == Parsed(c, e)
  {
    BacksDone(buf, s, c, e);
    hide ParsePipe, ParseBacks;
    SolidSkip(buf, e);
  }

  lemma PairLine(buf: CString, s: int, c: Cmd, e: int, d: Cmd, f: int)
    requires ReadsBacks(buf, s, c, e) && At(buf, e) == ';' && Solid(buf, e + 1) && ParseLine(buf, e + 1) == Parsed(d, f)
    ensures ParseLine(buf, s) == Parsed(List(c, d), f)
  {
    BacksDone(buf, s, c, e);
    hide ParsePipe, ParseBacks;
    SolidSkip(buf, e);
    SymbolToken(buf, e);
    assert Peek(buf, e, ";");
    hide Skip, GetToken;
  }

  lemma PairPipe(buf: CString, s: int, c: Cmd, e: int, d: Cmd, f: int)
    requires ReadsExec(buf, s, c, e) && At(buf, e) == '|' && Solid(buf, e + 1) && ReadsPipe(buf, e + 1, d, f)
    ensures ReadsPipe(buf, s, Pipe(c, d), f)
  {
    hide ParseExec;
    SolidSkip(buf, e);
    SymbolToken(buf, e);
    assert Peek(buf, e, "|");
    hide Skip, GetToken;
  }

  /** A block at s, from the line in it. */
  lemma LineBlock(buf: CString, s: int, e: int, t: Tree)
    requires 0 <= s < e < |buf| && buf[s] == '(' && buf[e] == ')' && Solid(buf, s + 1) && Solid(buf, e + 1)
    requires ReadsLine(buf, s + 1, e, t)
    ensures ReadsBlock(buf, s, ParseLine(buf, s + 1).cmd, e + 1)
  {
    hide ParseLine, ParseRedirs;
    BlockExec(buf, s, e, t);
  }

  lemma ArrowFileTokens(buf: CString, e: int, f: string, input: bool)
    requires Here(buf, e, Arrow(input)) && Here(buf, e + 1, f) && IsWord(f) && Next(buf, e + 1 + |f|, AFTERBLOCK)
    ensures Within(buf, e) && Skip(buf, e) == e && Peek(buf, e, "<>")
    ensures GetToken(buf, e) == Token(Arrow(input)[0], e, e + 1, e + 1)
    ensures GetToken(buf, e + 1) == Token('a', e + 1, e + 1 + |f|, e + 1 + |f|)
    ensures Text(buf, Span(e + 1, e + 1 + |f|)) == f
  {
    HereAt(buf, e, Arrow(input), 0);
    HereAt(buf, e + 1, f, 0);
    hide Here, GetToken, Skip;
    WordToken(buf, e + 1, f);
    SolidSkip(buf, e);
    SolidSkip(buf, e + 1 + |f|);
    SymbolToken(buf, e);
  }

  /** One redirection more. */
  lemma BlockMore(buf: CString, s: int, c: Cmd, e: int, f: string, input: bool)
    requires ReadsBlock(buf, s, c, e) && Here(buf, e, Arrow(input)) && Here(buf, e + 1, f) && IsWord(f)
    requires Next(buf, e + 1 + |f|, AFTERBLOCK)
    ensures ReadsBlock(buf, s, Redir(c, Span(e + 1, e + 1 + |f|), input), e + 1 + |f|)
    ensures Text(buf, Span(e + 1, e + 1 + |f|)) == f
  {
    hide Here, GetToken, Skip, ParseExec, Peek, IsWord, Text, Within, IsSpace, At;
    ArrowFileTokens(buf, e, f, input);
    NextSolid(buf, e + 1 + |f|, AFTERBLOCK);
  }

  lemma BlockDone(buf: CString, s: int, c: Cmd, e: int)
    requires ReadsBlock(buf, s, c, e) && Next(buf, e, AFTEREXEC)
    ensures ReadsExec(buf, s, c, e)
  {
    hide ParseExec;
    SolidSkip(buf, e);
    assert !Peek(buf, e, "<>");
  }

  // ---------------------------------------------------------------- every tree, by the place it stands in

  lemma MidHere(buf: CString, s: int, a: string, mid: string, b: string)
    requires Here(buf, s, a + mid + b) && |mid| == 1
    ensures Here(buf, s, a) && Here(buf, s + |a| + 1, b) && 0 <= s + |a| < |buf| && buf[s + |a|] == mid[0]
    ensures |a + mid + b| == |a| + 1 + |b|
  {
    Split3(buf, s, a, mid, b);
    HereAt(buf, s + |a|, mid, 0);
  }

  /** A pipeline. */
  lemma {:induction false} PipedTrip(buf: CString, s: int, t: Tree) returns (c: Cmd)
    requires t.Piped? && TreeFits(t) && Here(buf, s, Inner(t)) && Next(buf, s + |Inner(t)|, AFTERPIPE)
    ensures ReadsPipe(buf, s, c, s + |Inner(t)|) && Deref(buf, c) == t
    decreases t, 0
  {
    hide Here, ParsePipe, ParseExec, ExecText, PipeText, Clean, Solid, Deref, Next;
    var e := s + |ExecText(t.left)|;
    MidHere(buf, s, ExecText(t.left), "|", PipeText(t.right));
    LineClean(t.right);
    NextSolid(buf, s + |Inner(t)|, AFTERPIPE);
    CleanSolid(buf, e + 1, PipeText(t.right));
    IsNext(buf, e, AFTEREXEC);
    var a := ExecTrip(buf, s, t.left);
    var b := PipeTrip(buf, e + 1, t.right);
    PairPipe(buf, s, a, e, b, s + |Inner(t)|);
    c := Pipe(a, b);
    DerefPair(buf, a, b);
  }

  lemma DerefPair(buf: CString, a: Cmd, b: Cmd)
    ensures Deref(buf, Pipe(a, b)) == Piped(Deref(buf, a), Deref(buf, b))
    ensures Deref(buf, List(a, b)) == Listed(Deref(buf, a), Deref(buf, b))
    ensures Deref(buf, Back(a)) == Background(Deref(buf, a))
  {
  }

  lemma IsNext(buf: CString, e: int, chars: string)
    requires 0 <= e < |buf| && buf[e] in chars
    ensures Next(buf, e, chars)
  {
  }

  /** An ampersand after a pipeline or another ampersand. */
  lemma {:induction false} BackgroundTrip(buf: CString, s: int, t: Tree) returns (c: Cmd)
    requires t.Background? && TreeFits(t) && Here(buf, s, Inner(t)) && Next(buf, s + |Inner(t)|, AFTERPIPE)
    ensures ReadsBacks(buf, s, c, s + |Inner(t)|) && Deref(buf, c) == t
    decreases t, 0
  {
    hide Here, ParsePipe, ParseBacks, BackText, Solid, Deref, Next;
    var e := s + |BackText(t.sub)|;
    assert Inner(t) == BackText(t.sub) + "&" + "";
    MidHere(buf, s, BackText(t.sub), "&", "");
    NextSolid(buf, s + |Inner(t)|, AFTERPIPE);
    IsNext(buf, e, AFTERPIPE);
    var a := BackTrip(buf, s, t.sub);
    BackMore(buf, s, a, e);
    c := Back(a);
    DerefPair(buf, a, a);
  }

  /** A list. */
  lemma {:induction false} ListedTrip(buf: CString, s: int, t: Tree)
    requires t.Listed? && TreeFits(t) && Here(buf, s, Inner(t)) && Ends(buf, s + |Inner(t)|)
    ensures ReadsLine(buf, s, s + |Inner(t)|, t)
    decreases t, 0
  {
    hide Here, ParsePipe, ParseBacks, ParseLine, BackText, LineText, Clean, Solid, Deref, Next;
    var e := s + |BackText(t.left)|;
    MidHere(buf, s, BackText(t.left), ";", LineText(t.right));
    LineClean(t.right);
    EndsSolid(buf, s + |Inner(t)|);
    CleanSolid(buf, e + 1, LineText(t.right));
    IsNext(buf, e, AFTERPIPE);
    var a := BackTrip(buf, s, t.left);
    LineTextTrip(buf, e + 1, t.right);
    var b := ParseLine(buf, e + 1).cmd;
    PairLine(buf, s, a, e, b, s + |Inner(t)|);
    DerefPair(buf, a, b);
  }

  lemma EndsSolid(buf: CString, e: int)
    requires Ends(buf, e)
    ensures Solid(buf, e) && Next(buf, e, AFTERPIPE) && At(buf, e) != '&'
  {
  }

  /** A tree made by an operator, alone on its line or in its block. */
  lemma {:induction false} InnerTrip(buf: CString, s: int, t: Tree)
    requires Operator(t) && TreeFits(t) && Here(buf, s, Inner(t)) && Ends(buf, s + |Inner(t)|)
    ensures ReadsLine(buf, s, s + |Inner(t)|, t)
    decreases t, 1
  {
    hide Here, ParsePipe, ParseBacks, ParseLine, Inner, Deref, Ends, Next, TreeFits, Solid;
    var e := s + |Inner(t)|;
    EndsSolid(buf, e);
    if t.Listed? {
      ListedTrip(buf, s, t);
    } else if t.Background? {
      var c := BackgroundTrip(buf, s, t);
      BacksLine(buf, s, c, e);
    } else {
      var c := PipedTrip(buf, s, t);
      PipeIsBacks(buf, s, c, e);
      BacksLine(buf, s, c, e);
    }
  }

  /** A block with the redirections after it. */
  lemma {:induction false} BlockTextTrip(buf: CString, s: int, t: Tree) returns (c: Cmd)
    requires Flat(t).None? && TreeFits(t) && Here(buf, s, ExecText(t)) && Next(buf, s + |ExecText(t)|, AFTERBLOCK)
    ensures ReadsBlock(buf, s, c, s + |ExecText(t)|) && Deref(buf, c) == t
    decreases t, 2
  {
    hide Here, ParseExec, ParseRedirs, ParseLine, Inner, Next, Solid, Text, IsWord, Clean;
    var e := s + |ExecText(t)|;
    NextSolid(buf, e, AFTERBLOCK);
    if t.Redirect? {
      var m := s + |ExecText(t.sub)|;
      Split3(buf, s, ExecText(t.sub), Arrow(t.input), t.file);
      ArrowNext(buf, m, t.input);
      var a := BlockTextTrip(buf, s, t.sub);
      BlockMore(buf, s, a, m, t.file, t.input);
      c := Redir(a, Span(m + 1, m + 1 + |t.file|), t.input);
    } else {
      BlockParts(buf, s, t);
      InnerTrip(buf, s + 1, t);
      LineBlock(buf, s, e - 1, t);
      c := ParseLine(buf, s + 1).cmd;
    }
  }

  lemma ArrowNext(buf: CString, e: int, input: bool)
    requires Here(buf, e, Arrow(input))
    ensures Next(buf, e, AFTERBLOCK)
  {
    HereAt(buf, e, Arrow(input), 0);
  }

  lemma BlockParts(buf: CString, s: int, t: Tree)
    requires Operator(t) && TreeFits(t) && Here(buf, s, ExecText(t))
    ensures var e := s + 1 + |Inner(t)|;
            && 0 <= s < e < |buf| && buf[s] == '(' && buf[e] == ')' && Here(buf, s + 1, Inner(t)) && Ends(buf, e)
            && Solid(buf, s + 1) && |ExecText(t)| == |Inner(t)| + 2
  {
    hide Inner, Here, Clean;
    Split3(buf, s, "(", Inner(t), ")");
    HereAt(buf, s, "(", 0);
    HereAt(buf, s + 1 + |Inner(t)|, ")", 0);
    InnerClean(t);
    CleanSolid(buf, s + 1, Inner(t));
  }

  lemma {:induction false} ExecTrip(buf: CString, s: int, t: Tree) returns (c: Cmd)
    requires TreeFits(t) && Here(buf, s, ExecText(t)) && Next(buf, s + |ExecText(t)|, AFTEREXEC)
    ensures ReadsExec(buf, s, c, s + |ExecText(t)|) && Deref(buf, c) == t
    decreases t, 3
  {
    hide Here, ParseExec, ParseRedirs, Inner, ItemsText, Place, Solid, Deref;
    if Flat(t).Some? {
      var items := Flat(t).value;
      FlatMeans(t);
      SimpleExec(buf, s, items);
      c := Place(Exec([]), items, s);
    } else {
      assert Next(buf, s + |ExecText(t)|, AFTERBLOCK);
      c := BlockTextTrip(buf, s, t);
      BlockDone(buf, s, c, s + |ExecText(t)|);
    }
  }

  lemma {:induction false} PipeTrip(buf: CString, s: int, t: Tree) returns (c: Cmd)
    requires TreeFits(t) && Here(buf, s, PipeText(t)) && Next(buf, s + |PipeText(t)|, AFTERPIPE)
    ensures ReadsPipe(buf, s, c, s + |PipeText(t)|) && Deref(buf, c) == t
    decreases t, 4
  {
    hide Here, ParsePipe, ParseExec, Inner, ExecText, Solid, Deref;
    if t.Piped? {
      c := PipedTrip(buf, s, t);
    } else {
      assert Next(buf, s + |ExecText(t)|, AFTEREXEC);
      c := ExecTrip(buf, s, t);
      ExecIsPipe(buf, s, c, s + |ExecText(t)|);
    }
  }

  lemma {:induction false} BackTrip(buf: CString, s: int, t: Tree) returns (c: Cmd)
    requires TreeFits(t) && Here(buf, s, BackText(t)) && Next(buf, s + |BackText(t)|, AFTERPIPE)
    ensures ReadsBacks(buf, s, c, s + |BackText(t)|) && Deref(buf, c) == t
    decreases t, 5
  {
    hide Here, ParsePipe, ParseBacks, Inner, PipeText, Solid, Deref, Next;
    if t.Background? {
      c := BackgroundTrip(buf, s, t);
    } else {
      c := PipeTrip(buf, s, t);
      PipeIsBacks(buf, s, c, s + |PipeText(t)|);
    }
  }

  /** Any tree, at the end of a line or block, is read back as itself. */
  lemma {:induction false} LineTextTrip(buf: CString, s: int, t: Tree)
    requires TreeFits(t) && Here(buf, s, LineText(t)) && Ends(buf, s + |LineText(t)|)
    ensures ReadsLine(buf, s, s + |LineText(t)|, t)
    decreases t, 6
  {
    hide Here, ParsePipe, ParseBacks, ParseLine, Inner, BackText, Solid, Deref, Next;
    if t.Listed? {
      ListedTrip(buf, s, t);
    } else {
      EndsSolid(buf, s + |BackText(t)|);
      var c := BackTrip(buf, s, t);
      BacksLine(buf, s, c, s + |BackText(t)|);
    }
  }

  lemma WholeLine(buf: CString, t: Tree)
    requires TreeFits(t) && buf == LineText(t)
    ensures ParseCmd(buf).Parsed? && Deref(buf, ParseCmd(buf).cmd) == t
  {
    hide ParseLine, LineText, Deref, TreeFits;
    assert buf[0..|buf|] == buf;
    LineTextTrip(buf, 0, t);
  }

  /** Any tree within MAXARGS, written with parentheses only where the grammar needs them, is read back by
      `parsecmd` as itself. */
  lemma TerseRoundTrip(t: Tree)
    requires TreeFits(t)
    ensures var text := LineText(t);
            '\0' !in text && ParseCmd(text).Parsed? && Deref(text, ParseCmd(text).cmd) == t
  {
    LineClean(t);
    hide LineText, ParseCmd, Deref;
    WholeLine(LineText(t), t);
  }

  /** How commands without operators are joined: no parentheses for a pipeline in a background job in a
      list, nor for chains to the right; parentheses for chains to the left. */
  lemma HowOperatorsBind(a: Tree, b: Tree, c: Tree)
    requires !Operator(a) && !Operator(b) && !Operator(c)
    ensures LineText(Listed(Background(Piped(a, b)), c)) == ExecText(a) + "|" + ExecText(b) + "&" + ";" + ExecText(c)
    ensures LineText(Piped(a, Piped(b, c))) == ExecText(a) + "|" + (ExecText(b) + "|" + ExecText(c))
    ensures LineText(Listed(a, Listed(b, c))) == ExecText(a) + ";" + (ExecText(b) + ";" + ExecText(c))
    ensures LineText(Piped(Piped(a, b), c)) == "(" + (ExecText(a) + "|" + ExecText(b)) + ")" + "|" + ExecText(c)
    ensures LineText(Listed(Listed(a, b), c)) == "(" + (ExecText(a) + ";" + ExecText(b)) + ")" + ";" + ExecText(c)
  {
    hide LineText, BackText, PipeText, ExecText, Inner;
    Plain(a);
    Plain(b);
    Plain(c);
    var p, q := Piped(a, b), Listed(a, b);
    Alone(p);
    Alone(q);
    Alone(Background(p));
    Alone(Listed(Background(p), c));
    Alone(Piped(b, c));
    Alone(Piped(a, Piped(b, c)));
    Alone(Listed(b, c));
    Alone(Listed(a, Listed(b, c)));
    Alone(Piped(p, c));
    Alone(Listed(q, c));
  }

  lemma Plain(t: Tree)
    requires !Operator(t)
    ensures LineText(t) == BackText(t) == PipeText(t) == ExecText(t)
  {
  }

  /** An operator's tree in the places where it needs no parentheses, and where it does. */
  lemma Alone(t: Tree)
    requires Operator(t)
    ensures LineText(t) == Inner(t) && ExecText(t) == "(" + Inner(t) + ")"
    ensures BackText(t) == if t.Listed? then ExecText(t) else Inner(t)
    ensures PipeText(t) == if t.Piped? then Inner(t) else ExecText(t)
    ensures Inner(t) == match t
                        case Piped(l, r) => ExecText(l) + "|" + PipeText(r)
                        case Listed(l, r) => BackText(l) + ";" + LineText(r)
                        case Background(sub) => BackText(sub) + "&"
  {
    assert PipeText(t) == if t.Piped? then Inner(t) else ExecText(t);
    assert BackText(t) == if t.Background? then Inner(t) else PipeText(t);
  }
}
