/** Parsing undoes rendering: a command tree, written out with parentheses around every part, is read
    back as that tree; in a simple command, redirections may stand anywhere among the words. */
module ShellRoundTrip {
  import opened Basics
  import opened Shell

  /** A command tree with its strings in place of pointers. */
  datatype Tree =
    | Run(args: seq<string>)
    | Redirect(sub: Tree, file: string, input: bool)
    | Piped(left: Tree, right: Tree)
    | Listed(left: Tree, right: Tree)
    | Background(sub: Tree)

  function Text(buf: CString, a: Span): string {
    if 0 <= a.q <= a.eq <= |buf| then buf[a.q..a.eq] else []
  }

  function Texts(buf: CString, argv: seq<Span>): seq<string> {
    seq(|argv|, i requires 0 <= i < |argv| => Text(buf, argv[i]))
  }

  /** The tree that a parsed command stands for. */
  function Deref(buf: CString, cmd: Cmd): Tree {
    match cmd
    case Exec(argv) => Run(Texts(buf, argv))
    case Redir(c, file, input) => Redirect(Deref(buf, c), Text(buf, file), input)
    case Pipe(l, r) => Piped(Deref(buf, l), Deref(buf, r))
    case List(l, r) => Listed(Deref(buf, l), Deref(buf, r))
    case Back(c) => Background(Deref(buf, c))
  }

  // ---------------------------------------------------------------- what is written

  datatype Item = Word(w: string) | To(file: string, input: bool)

  datatype Source =
    | Simple(items: seq<Item>)
    | Redirected(sub: Source, file: string, input: bool)
    | Pipeline(left: Source, right: Source)
    | Sequence(left: Source, right: Source)
    | Ampersand(sub: Source)

  predicate IsWord(w: string) { w != [] && forall i | 0 <= i < |w| :: InWord(w[i]) }

  function Arrow(input: bool): string { if input then "<" else ">" }

  function ItemText(x: Item): string {
    match x
    case Word(w) => w + " "
    case To(f, input) => Arrow(input) + f + " "
  }

  function ItemsText(items: seq<Item>): string {
    if items == [] then "" else ItemText(items[0]) + ItemsText(items[1..])
  }

  function Render(x: Source): string {
    match x
    case Simple(items) => ItemsText(items)
    case Redirected(sub, f, input) => "(" + Render(sub) + ")" + Arrow(input) + f
    case Pipeline(l, r) => "(" + Render(l) + ")|(" + Render(r) + ")"
    case Sequence(l, r) => "(" + Render(l) + ");(" + Render(r) + ")"
    case Ampersand(sub) => "(" + Render(sub) + ")&"
  }

  predicate ItemOk(x: Item) { IsWord(if x.Word? then x.w else x.file) }

  function Words(items: seq<Item>): nat {
    if items == [] then 0 else (if items[0].Word? then 1 else 0) + Words(items[1..])
  }

  predicate Fits(x: Source) {
    match x
    case Simple(items) => (forall i | 0 <= i < |items| :: ItemOk(items[i])) && Words(items) < MAXARGS
    case Redirected(sub, f, _) => Fits(sub) && IsWord(f)
    case Pipeline(l, r) => Fits(l) && Fits(r)
    case Sequence(l, r) => Fits(l) && Fits(r)
    case Ampersand(sub) => Fits(sub)
  }

  /** One more word goes to the command below the redirections. */
  function Extend(t: Tree, w: string): Tree {
    match t
    case Run(args) => Run(args + [w])
    case Redirect(sub, f, input) => Redirect(Extend(sub, w), f, input)
    case _ => t
  }

  function Build(t: Tree, items: seq<Item>): Tree
    decreases |items|
  {
    if items == [] then t
    else Build(if items[0].Word? then Extend(t, items[0].w) else Redirect(t, items[0].file, items[0].input), items[1..])
  }

  /** What the written text means. */
  function Mean(x: Source): Tree {
    match x
    case Simple(items) => Build(Run([]), items)
    case Redirected(sub, f, input) => Redirect(Mean(sub), f, input)
    case Pipeline(l, r) => Piped(Mean(l), Mean(r))
    case Sequence(l, r) => Listed(Mean(l), Mean(r))
    case Ampersand(sub) => Background(Mean(sub))
  }

  // ---------------------------------------------------------------- text in the buffer

  /** The text stands at s. */
  ghost predicate Here(buf: CString, s: int, text: string) {
    0 <= s <= s + |text| <= |buf| && buf[s..s + |text|] == text
  }

  /** The end of a line, or of a block. */
  predicate Ends(buf: CString, e: int) { Within(buf, e) && At(buf, e) in "\0)" }

  /** The end of a simple command. */
  predicate Stops(buf: CString, e: int) { Within(buf, e) && At(buf, e) in "\0|)&;" }

  predicate Solid(buf: CString, s: int) { Within(buf, s) && !IsSpace(At(buf, s)) }

  lemma HereSplit(buf: CString, s: int, a: string, b: string)
    requires Here(buf, s, a + b)
    ensures Here(buf, s, a) && Here(buf, s + |a|, b)
  {
    var t := buf[s..s + |a + b|];
    assert t[..|a|] == a && t[|a|..] == b;
    assert buf[s..s + |a|] == t[..|a|];
    assert buf[s + |a|..s + |a| + |b|] == t[|a|..];
  }

  lemma HereAt(buf: CString, s: int, text: string, i: int)
    requires Here(buf, s, text) && 0 <= i < |text|
    ensures 0 <= s + i < |buf| && buf[s + i] == text[i]
  {
    assert buf[s..s + |text|][i] == text[i];
  }

  lemma HereWithin(buf: CString, s: int, text: string)
    requires Here(buf, s, text)
    ensures Within(buf, s)
  {
  }

  lemma SolidSkip(buf: CString, s: int)
    requires Solid(buf, s)
    ensures Skip(buf, s) == s
  {
  }

  /** A symbol of one character, with something other than a blank after it. */
  lemma SymbolToken(buf: CString, s: int)
    requires 0 <= s < |buf| && IsSymbol(buf[s]) && Solid(buf, s + 1) && (buf[s] == '>' ==> At(buf, s + 1) != '>')
    ensures GetToken(buf, s) == Token(buf[s], s, s + 1, s + 1)
  {
  }

  lemma {:induction false} WordEndIs(buf: CString, s: int, e: int)
    requires 0 <= s <= e <= |buf| && (forall i | s <= i < e :: InWord(buf[i])) && !InWord(At(buf, e))
    ensures WordEnd(buf, s) == e
    decreases e - s
  {
    if s < e {
      WordEndIs(buf, s + 1, e);
    }
  }

  /** A word, up to a blank or the end. */
  lemma WordToken(buf: CString, s: int, w: string)
    requires IsWord(w) && Here(buf, s, w) && !InWord(At(buf, s + |w|))
    ensures GetToken(buf, s) == Token('a', s, s + |w|, Skip(buf, s + |w|))
    ensures Text(buf, Span(s, s + |w|)) == w && InWord(buf[s])
  {
    forall i | s <= i < s + |w| ensures InWord(buf[i]) { HereAt(buf, s, w, i - s); }
    WordEndIs(buf, s, s + |w|);
  }

  lemma BlankThen(buf: CString, s: int)
    requires 0 <= s < |buf| && buf[s] == ' ' && Solid(buf, s + 1)
    ensures Skip(buf, s) == s + 1 && !InWord(At(buf, s))
  {
    assert Skip(buf, s) == Skip(buf, s + 1);
  }

  // ---------------------------------------------------------------- simple commands

  /** Text that begins with something other than a blank, or is empty before an end. */
  lemma ItemsSolid(buf: CString, s: int, items: seq<Item>)
    requires Here(buf, s, ItemsText(items)) && forall i | 0 <= i < |items| :: ItemOk(items[i])
    requires Stops(buf, s + |ItemsText(items)|)
    ensures Solid(buf, s)
  {
    if items != [] {
      var x := items[0];
      assert ItemOk(x);
      HereAt(buf, s, ItemsText(items), 0);
    }
  }

  /** The tree that the parser builds for items at s: Build, with spans for strings. */
  function Place(cmd: Cmd, items: seq<Item>, s: int): Cmd
    decreases |items|
  {
    if items == [] then cmd
    else
      match items[0]
      case Word(w) => Place(AddArg(cmd, Span(s, s + |w|)), items[1..], s + |w| + 1)
      case To(f, input) => Place(Redir(cmd, Span(s + 1, s + 1 + |f|), input), items[1..], s + |f| + 2)
  }

  /** The rest of parseexec after some arguments: redirections, then the loop. */
  function Rest(buf: CString, cmd: Cmd, argc: nat, s: int): Result
    requires Within(buf, s)
  {
    var d := ParseRedirs(buf, cmd, s);
    if d.Panic? then Panic else ParseArgs(buf, d.cmd, argc, d.s)
  }

  lemma RestWord(buf: CString, cmd: Cmd, argc: nat, s: int, x: Item)
    requires x.Word? && ItemOk(x) && Here(buf, s, ItemText(x)) && Solid(buf, s + |x.w| + 1)
    ensures Rest(buf, cmd, argc, s)
            == if argc + 1 >= MAXARGS then Panic
              else Rest(buf, AddArg(cmd, Span(s, s + |x.w|)), argc + 1, s + |x.w| + 1)
  {
    hide GetToken, Skip, Text, IsWord, AddArg;
    WordThenBlank(buf, s, x.w);
    assert !Peek(buf, s, "<>") && !Peek(buf, s, "|)&;");
    assert ParseRedirs(buf, cmd, s) == Parsed(cmd, s);
  }

  lemma WordThenBlank(buf: CString, s: int, w: string)
    requires IsWord(w) && Here(buf, s, w + " ") && Solid(buf, s + |w| + 1)
    ensures Within(buf, s) && Skip(buf, s) == s && InWord(At(buf, s))
    ensures GetToken(buf, s) == Token('a', s, s + |w|, s + |w| + 1)
  {
    HereSplit(buf, s, w, " ");
    HereAt(buf, s + |w|, " ", 0);
    BlankThen(buf, s + |w|);
    WordToken(buf, s, w);
    SolidSkip(buf, s);
  }

  lemma RestRedir(buf: CString, cmd: Cmd, argc: nat, s: int, x: Item)
    requires x.To? && ItemOk(x) && Here(buf, s, ItemText(x)) && Solid(buf, s + |x.file| + 2)
    ensures Rest(buf, cmd, argc, s)
            == Rest(buf, Redir(cmd, Span(s + 1, s + 1 + |x.file|), x.input), argc, s + |x.file| + 2)
  {
    hide ParseArgs, GetToken, Skip, Text, IsWord;
    ArrowThenFile(buf, s, x.file, x.input);
    assert Peek(buf, s, "<>");
  }

  lemma ArrowThenFile(buf: CString, s: int, f: string, input: bool)
    requires IsWord(f) && Here(buf, s, Arrow(input) + f + " ") && Solid(buf, s + |f| + 2)
    ensures Within(buf, s) && Skip(buf, s) == s && At(buf, s) == Arrow(input)[0]
    ensures GetToken(buf, s) == Token(Arrow(input)[0], s, s + 1, s + 1)
    ensures GetToken(buf, s + 1) == Token('a', s + 1, s + 1 + |f|, s + |f| + 2)
  {
    HereSplit(buf, s, Arrow(input) + f, " ");
    HereSplit(buf, s, Arrow(input), f);
    HereAt(buf, s, Arrow(input), 0);
    HereAt(buf, s + |f| + 1, " ", 0);
    hide Here, GetToken, Skip;
    BlankThen(buf, s + |f| + 1);
    WordToken(buf, s + 1, f);
    SolidSkip(buf, s);
    SymbolToken(buf, s);
  }

  lemma RestEnd(buf: CString, cmd: Cmd, argc: nat, s: int)
    requires Stops(buf, s)
    ensures Rest(buf, cmd, argc, s) == Parsed(cmd, s)
  {
    SolidSkip(buf, s);
    assert ParseRedirs(buf, cmd, s) == Parsed(cmd, s);
  }

  function Width(x: Item): nat { if x.Word? then |x.w| + 1 else |x.file| + 2 }

  /** The first item, and the place of the others. */
  lemma FirstItem(buf: CString, s: int, items: seq<Item>)
    requires items != [] && Here(buf, s, ItemsText(items))
    ensures var x := items[0]; Here(buf, s, ItemText(x)) && Here(buf, s + Width(x), ItemsText(items[1..]))
    ensures |ItemsText(items)| == Width(items[0]) + |ItemsText(items[1..])|
  {
    hide Here;
    assert |ItemText(items[0])| == Width(items[0]);
    hide ItemText;
    HereSplit(buf, s, ItemText(items[0]), ItemsText(items[1..]));
  }

  lemma Unroll(cmd: Cmd, items: seq<Item>, s: int)
    requires items != []
    ensures var x := items[0];
            && Words(items) == (if x.Word? then 1 else 0) + Words(items[1..])
            && Place(cmd, items, s) == Place(if x.Word? then AddArg(cmd, Span(s, s + |x.w|))
                                             else Redir(cmd, Span(s + 1, s + 1 + |x.file|), x.input),
                                             items[1..], s + Width(x))
  {
  }

  /** A simple command is read item by item; the twentieth word is one too many. */
  lemma {:induction false} RestTrip(buf: CString, cmd: Cmd, argc: nat, s: int, items: seq<Item>)
    requires Here(buf, s, ItemsText(items)) && (forall i | 0 <= i < |items| :: ItemOk(items[i])) && argc < MAXARGS
    requires Stops(buf, s + |ItemsText(items)|)
    ensures Within(buf, s)
    ensures Rest(buf, cmd, argc, s) == if argc + Words(items) >= MAXARGS then Panic
                                       else Parsed(Place(cmd, items, s), s + |ItemsText(items)|)
    decreases |items|
  {
    hide Rest, Stops, Here, Solid, AddArg, ItemOk, ItemText, ItemsText, Place, Words, Within;
    HereWithin(buf, s, ItemsText(items));
    if items == [] {
      EmptyTrip(buf, cmd, argc, s);
    } else {
      var x, tail := items[0], items[1..];
      FirstItem(buf, s, items);
      Unroll(cmd, items, s);
      ItemsSolid(buf, s + Width(x), tail);
      if x.To? {
        RestRedir(buf, cmd, argc, s, x);
        RestTrip(buf, Redir(cmd, Span(s + 1, s + 1 + |x.file|), x.input), argc, s + Width(x), tail);
      } else {
        RestWord(buf, cmd, argc, s, x);
        if argc + 1 < MAXARGS {
          RestTrip(buf, AddArg(cmd, Span(s, s + |x.w|)), argc + 1, s + Width(x), tail);
        }
      }
    }
  }

  lemma EmptyTrip(buf: CString, cmd: Cmd, argc: nat, s: int)
    requires Stops(buf, s + |ItemsText([])|)
    ensures Within(buf, s) && Rest(buf, cmd, argc, s) == Parsed(Place(cmd, [], s), s + |ItemsText([])|)
            && Words([]) == 0
  {
    RestEnd(buf, cmd, argc, s);
  }

  lemma {:induction false} DerefAdd(buf: CString, cmd: Cmd, a: Span)
    ensures Deref(buf, AddArg(cmd, a)) == Extend(Deref(buf, cmd), Text(buf, a))
    decreases cmd
  {
    if cmd.Exec? {
      assert Texts(buf, cmd.argv + [a]) == Texts(buf, cmd.argv) + [Text(buf, a)];
    } else if cmd.Redir? {
      DerefAdd(buf, cmd.cmd, a);
    }
  }

  lemma ItemTexts(buf: CString, s: int, x: Item)
    requires Here(buf, s, ItemText(x))
    ensures x.Word? ==> Text(buf, Span(s, s + |x.w|)) == x.w
    ensures x.To? ==> Text(buf, Span(s + 1, s + 1 + |x.file|)) == x.file
  {
    if x.Word? {
      HereSplit(buf, s, x.w, " ");
    } else {
      HereSplit(buf, s, Arrow(x.input) + x.file, " ");
      HereSplit(buf, s, Arrow(x.input), x.file);
    }
  }

  lemma {:induction false} PlaceMeans(buf: CString, cmd: Cmd, items: seq<Item>, s: int)
    requires Here(buf, s, ItemsText(items))
    ensures Deref(buf, Place(cmd, items, s)) == Build(Deref(buf, cmd), items)
    decreases |items|
  {
    hide Here, Text, Texts, AddArg, Extend, ItemText, ItemsText;
    if items != [] {
      var x, tail := items[0], items[1..];
      FirstItem(buf, s, items);
      ItemTexts(buf, s, x);
      if x.Word? {
        DerefAdd(buf, cmd, Span(s, s + |x.w|));
        PlaceMeans(buf, AddArg(cmd, Span(s, s + |x.w|)), tail, s + |x.w| + 1);
      } else {
        PlaceMeans(buf, Redir(cmd, Span(s + 1, s + 1 + |x.file|), x.input), tail, s + |x.file| + 2);
      }
    }
  }

  // ---------------------------------------------------------------- blocks, pipes and lists

  /** parseexec read a command up to e. */
  ghost predicate ReadsExec(buf: CString, s: int, c: Cmd, e: int) {
    Within(buf, s) && ParseExec(buf, s) == Parsed(c, e) && Solid(buf, e)
  }

  /** parseline reads the text at s, up to its end, as a command that means t. */
  ghost predicate ReadsLine(buf: CString, s: int, e: int, t: Tree) {
    Within(buf, s) && ParseLine(buf, s).Parsed? && ParseLine(buf, s).s == e && Deref(buf, ParseLine(buf, s).cmd) == t
  }

  lemma ExecToPipe(buf: CString, s: int, c: Cmd, e: int)
    requires ReadsExec(buf, s, c, e) && At(buf, e) != '|'
    ensures ParsePipe(buf, s) == Parsed(c, e)
  {
    SolidSkip(buf, e);
  }

  /** A command that ends the line or block. */
  lemma ExecToLine(buf: CString, s: int, c: Cmd, e: int)
    requires ReadsExec(buf, s, c, e) && Ends(buf, e)
    ensures ParseLine(buf, s) == Parsed(c, e)
  {
    ExecToPipe(buf, s, c, e);
    SolidSkip(buf, e);
  }

  lemma SimpleLine(buf: CString, s: int, items: seq<Item>)
    requires Here(buf, s, ItemsText(items)) && (forall i | 0 <= i < |items| :: ItemOk(items[i]))
             && Words(items) < MAXARGS
    requires Ends(buf, s + |ItemsText(items)|)
    ensures ReadsLine(buf, s, s + |ItemsText(items)|, Build(Run([]), items))
  {
    hide Here, ItemsText, ItemOk, Place, Build, Words, ParseLine, ParseArgs, ParseRedirs, Skip;
    var e := s + |ItemsText(items)|;
    var c := Place(Exec([]), items, s);
    RestTrip(buf, Exec([]), 0, s, items);
    ItemsSolid(buf, s, items);
    SolidSkip(buf, s);
    ItemsStart(buf, s, items);
    assert !Peek(buf, s, "(");
    assert ReadsExec(buf, s, c, e);
    ExecToLine(buf, s, c, e);
    PlaceMeans(buf, Exec([]), items, s);
    assert Texts(buf, []) == [];
  }

  lemma ItemsStart(buf: CString, s: int, items: seq<Item>)
    requires Here(buf, s, ItemsText(items)) && forall i | 0 <= i < |items| :: ItemOk(items[i])
    requires Stops(buf, s + |ItemsText(items)|)
    ensures Within(buf, s) && At(buf, s) != '('
  {
    if items != [] {
      assert ItemOk(items[0]);
      HereAt(buf, s, ItemsText(items), 0);
    }
  }

  /** A block: what its line is read as, then redirections. */
  lemma BlockExec(buf: CString, s: int, e: int, t: Tree)
    requires 0 <= s < e < |buf| && buf[s] == '(' && buf[e] == ')' && Solid(buf, s + 1) && Solid(buf, e + 1)
    requires ReadsLine(buf, s + 1, e, t)
    ensures ParseExec(buf, s) == ParseRedirs(buf, ParseLine(buf, s + 1).cmd, e + 1)
  {
    hide ParseLine, ParseRedirs, ParseArgs, GetToken, Skip, Deref;
    SolidSkip(buf, s);
    SolidSkip(buf, e);
    SymbolToken(buf, s);
    SymbolToken(buf, e);
    assert Peek(buf, s, "(") && Peek(buf, e, ")");
    hide Peek;
    assert ParseExec(buf, s) == ParseBlock(buf, s);
  }

  lemma PlainBlock(buf: CString, s: int, e: int, t: Tree)
    requires 0 <= s < e < |buf| && buf[s] == '(' && buf[e] == ')' && Solid(buf, s + 1) && Solid(buf, e + 1)
    requires ReadsLine(buf, s + 1, e, t) && At(buf, e + 1) !in "<>"
    ensures ReadsExec(buf, s, ParseLine(buf, s + 1).cmd, e + 1)
  {
    BlockExec(buf, s, e, t);
    SolidSkip(buf, e + 1);
  }

  lemma RenderSolid(buf: CString, s: int, x: Source)
    requires Here(buf, s, Render(x)) && Fits(x) && Ends(buf, s + |Render(x)|)
    ensures Solid(buf, s)
  {
    if x.Simple? {
      ItemsSolid(buf, s, x.items);
    } else {
      HereAt(buf, s, Render(x), 0);
    }
  }

  lemma Split3(buf: CString, s: int, a: string, b: string, c: string)
    requires Here(buf, s, a + b + c)
    ensures Here(buf, s, a) && Here(buf, s + |a|, b) && Here(buf, s + |a| + |b|, c)
  {
    hide Here;
    HereSplit(buf, s, a + b, c);
    HereSplit(buf, s, a, b);
  }

  lemma Split5(buf: CString, s: int, a: string, b: string, c: string, d: string, e: string)
    requires Here(buf, s, a + b + c + d + e)
    ensures Here(buf, s, a) && Here(buf, s + |a|, b) && Here(buf, s + |a| + |b|, c)
    ensures Here(buf, s + |a| + |b| + |c|, d) && Here(buf, s + |a| + |b| + |c| + |d|, e)
  {
    hide Here;
    HereSplit(buf, s, a + b + c + d, e);
    HereSplit(buf, s, a + b + c, d);
    Split3(buf, s, a, b, c);
  }

  /** x in parentheses at s, with its closing parenthesis at e. */
  ghost predicate Block(buf: CString, s: int, x: Source, e: int) {
    0 <= s < e < |buf| && e == s + 1 + |Render(x)| && buf[s] == '(' && buf[e] == ')' && Here(buf, s + 1, Render(x))
  }

  lemma BlockHere(buf: CString, s: int, x: Source, close: string)
    requires Here(buf, s, "(") && Here(buf, s + 1, Render(x)) && Here(buf, s + 1 + |Render(x)|, close)
    requires close != [] && close[0] == ')'
    ensures Block(buf, s, x, s + 1 + |Render(x)|)
  {
    hide Render;
    HereAt(buf, s, "(", 0);
    HereAt(buf, s + 1 + |Render(x)|, close, 0);
  }

  lemma BlockEnds(buf: CString, s: int, x: Source, e: int)
    requires Block(buf, s, x, e) && Fits(x)
    ensures Ends(buf, e) && Solid(buf, s + 1)
  {
    RenderSolid(buf, s + 1, x);
  }

  /** Two parts with a symbol between them. */
  lemma TwoBlocks(buf: CString, s: int, l: Source, r: Source, mid: string)
    requires Here(buf, s, "(" + Render(l) + mid + Render(r) + ")") && |mid| == 3 && mid[0] == ')' && mid[2] == '('
    ensures var e := s + 1 + |Render(l)|; var f := e + 3 + |Render(r)|;
            Block(buf, s, l, e) && Block(buf, e + 2, r, f) && buf[e + 1] == mid[1]
  {
    hide Here, Block, Render;
    Split5(buf, s, "(", Render(l), mid, Render(r), ")");
    var e := s + 1 + |Render(l)|;
    BlockHere(buf, s, l, mid);
    HereAt(buf, e, mid, 1);
    MidParen(buf, e, mid);
    BlockHere(buf, e + 2, r, ")");
  }

  lemma MidParen(buf: CString, e: int, mid: string)
    requires Here(buf, e, mid) && |mid| == 3 && mid[2] == '('
    ensures Here(buf, e + 2, "(")
  {
    HereAt(buf, e, mid, 2);
  }

  /** A block, from the trip of what is in it. */
  lemma BlockTrip(buf: CString, s: int, x: Source, e: int)
    requires Block(buf, s, x, e) && Fits(x) && ReadsLine(buf, s + 1, e, Mean(x)) && Solid(buf, e + 1)
             && At(buf, e + 1) !in "<>"
    ensures ReadsExec(buf, s, ParseLine(buf, s + 1).cmd, e + 1)
  {
    hide ParseLine, ParseExec, Deref;
    BlockEnds(buf, s, x, e);
    PlainBlock(buf, s, e, Mean(x));
  }

  /** Any written command, at the end of a line or block, is read as what it means. */
  lemma {:induction false} LineTrip(buf: CString, s: int, x: Source)
    requires Here(buf, s, Render(x)) && Fits(x) && Ends(buf, s + |Render(x)|)
    ensures ReadsLine(buf, s, s + |Render(x)|, Mean(x))
    decreases x, 2
  {
    hide ReadsLine, Here, Ends, Solid;
    match x
    case Simple(items) => SimpleLine(buf, s, items);
    case Redirected(sub, f, input) => RedirectedTrip(buf, s, x);
    case Pipeline(l, r) => PipelineTrip(buf, s, x);
    case Sequence(l, r) => SequenceTrip(buf, s, x);
    case Ampersand(sub) => AmpersandTrip(buf, s, x);
  }

  lemma AmpersandParts(buf: CString, s: int, x: Source)
    requires x.Ampersand? && Here(buf, s, Render(x))
    ensures var e := s + 1 + |Render(x.sub)|; Block(buf, s, x.sub, e) && e + 1 < |buf| && buf[e + 1] == '&'
    ensures |Render(x)| == |Render(x.sub)| + 3
  {
    hide Block, Here;
    Split3(buf, s, "(", Render(x.sub), ")&");
    BlockHere(buf, s, x.sub, ")&");
    HereAt(buf, s + 1 + |Render(x.sub)|, ")&", 1);
  }

  lemma {:induction false} AmpersandTrip(buf: CString, s: int, x: Source)
    requires x.Ampersand? && Here(buf, s, Render(x)) && Fits(x) && Ends(buf, s + |Render(x)|)
    ensures ReadsLine(buf, s, s + |Render(x)|, Mean(x))
    decreases x, 0
  {
    hide Here, ParseExec, ParseLine, Render;
    var e := s + 1 + |Render(x.sub)|;
    AmpersandParts(buf, s, x);
    BlockEnds(buf, s, x.sub, e);
    LineTrip(buf, s + 1, x.sub);
    BlockTrip(buf, s, x.sub, e);
    BackLine(buf, s, ParseLine(buf, s + 1).cmd, e + 1);
  }

  lemma BackLine(buf: CString, s: int, c: Cmd, e: int)
    requires ReadsExec(buf, s, c, e) && At(buf, e) == '&' && Ends(buf, e + 1)
    ensures ParseLine(buf, s) == Parsed(Back(c), e + 1)
  {
    ExecToPipe(buf, s, c, e);
    SolidSkip(buf, e);
    SolidSkip(buf, e + 1);
    SymbolToken(buf, e);
    hide ParsePipe, Skip, GetToken;
    assert ParseBacks(buf, Back(c), e + 1) == Parsed(Back(c), e + 1);
  }

  lemma PairParts(buf: CString, s: int, x: Source)
    requires (x.Pipeline? || x.Sequence?) && Here(buf, s, Render(x))
    ensures var e := s + 1 + |Render(x.left)|; var f := e + 3 + |Render(x.right)|;
            && Block(buf, s, x.left, e) && Block(buf, e + 2, x.right, f)
            && buf[e + 1] == (if x.Pipeline? then '|' else ';') && f + 1 == s + |Render(x)|
  {
    hide Here, Block;
    TwoBlocks(buf, s, x.left, x.right, if x.Pipeline? then ")|(" else ");(");
    BlockIn(buf, s, x.left, s + 1 + |Render(x.left)|);
    BlockIn(buf, s + 3 + |Render(x.left)|, x.right, s + 4 + |Render(x.left)| + |Render(x.right)|);
  }

  lemma BlockIn(buf: CString, s: int, x: Source, e: int)
    requires Block(buf, s, x, e)
    ensures 0 <= s < e < |buf|
  {
  }

  /** Both parts of a pair are read, each as a block. */
  lemma {:induction false} PairTrip(buf: CString, s: int, x: Source, e: int, f: int)
    requires (x.Pipeline? || x.Sequence?) && Here(buf, s, Render(x)) && Fits(x) && Ends(buf, s + |Render(x)|)
    requires e == s + 1 + |Render(x.left)| && f == e + 3 + |Render(x.right)|
    ensures f + 1 == s + |Render(x)| && 0 <= s < e < f < |buf| && buf[e + 1] == (if x.Pipeline? then '|' else ';')
    ensures Solid(buf, e + 2)
    ensures ReadsLine(buf, s + 1, e, Mean(x.left)) && ReadsExec(buf, s, ParseLine(buf, s + 1).cmd, e + 1)
    ensures ReadsLine(buf, e + 3, f, Mean(x.right)) && ReadsExec(buf, e + 2, ParseLine(buf, e + 3).cmd, f + 1)
    decreases x, 0
  {
    hide Here, ParseExec, ParseLine, Render, Deref, Mean;
    PairParts(buf, s, x);
    BlockEnds(buf, s, x.left, e);
    BlockEnds(buf, e + 2, x.right, f);
    LineTrip(buf, s + 1, x.left);
    LineTrip(buf, e + 3, x.right);
    hide ReadsLine;
    BlockTrip(buf, s, x.left, e);
    BlockTrip(buf, e + 2, x.right, f);
  }

  lemma {:induction false} PipelineTrip(buf: CString, s: int, x: Source)
    requires x.Pipeline? && Here(buf, s, Render(x)) && Fits(x) && Ends(buf, s + |Render(x)|)
    ensures ReadsLine(buf, s, s + |Render(x)|, Mean(x))
    decreases x, 1
  {
    hide Here, ParseExec, ParseLine, Render, Fits;
    var e := s + 1 + |Render(x.left)|;
    var f := e + 3 + |Render(x.right)|;
    PairTrip(buf, s, x, e, f);
    PipeLine(buf, s, ParseLine(buf, s + 1).cmd, e + 1, ParseLine(buf, e + 3).cmd, f + 1);
  }

  lemma PipeLine(buf: CString, s: int, c: Cmd, e: int, d: Cmd, f: int)
    requires ReadsExec(buf, s, c, e) && At(buf, e) == '|' && ReadsExec(buf, e + 1, d, f) && Ends(buf, f)
             && Solid(buf, e + 1)
    ensures ParseLine(buf, s) == Parsed(Pipe(c, d), f)
  {
    hide ParseExec, Skip, GetToken;
    ExecToPipe(buf, e + 1, d, f);
    SolidSkip(buf, e);
    SolidSkip(buf, f);
    SymbolToken(buf, e);
    assert ParsePipe(buf, s) == Parsed(Pipe(c, d), f);
    hide ParsePipe;
    assert ParseBacks(buf, Pipe(c, d), f) == Parsed(Pipe(c, d), f);
  }

  lemma {:induction false} SequenceTrip(buf: CString, s: int, x: Source)
    requires x.Sequence? && Here(buf, s, Render(x)) && Fits(x) && Ends(buf, s + |Render(x)|)
    ensures ReadsLine(buf, s, s + |Render(x)|, Mean(x))
    decreases x, 1
  {
    hide Here, ParseExec, ParseLine, Render, Fits;
    var e := s + 1 + |Render(x.left)|;
    var f := e + 3 + |Render(x.right)|;
    PairTrip(buf, s, x, e, f);
    ListLine(buf, s, ParseLine(buf, s + 1).cmd, e + 1, ParseLine(buf, e + 3).cmd, f + 1);
  }

  lemma ListLine(buf: CString, s: int, c: Cmd, e: int, d: Cmd, f: int)
    requires ReadsExec(buf, s, c, e) && At(buf, e) == ';' && ReadsExec(buf, e + 1, d, f) && Ends(buf, f)
             && Solid(buf, e + 1)
    ensures ParseLine(buf, s) == Parsed(List(c, d), f)
  {
    hide ParseExec, Skip, GetToken, ParsePipe;
    ExecToLine(buf, e + 1, d, f);
    ExecToPipe(buf, s, c, e);
    SolidSkip(buf, e);
    SymbolToken(buf, e);
    assert ParseBacks(buf, c, e) == Parsed(c, e);
  }

  lemma RedirectedParts(buf: CString, s: int, x: Source)
    requires x.Redirected? && Here(buf, s, Render(x))
    ensures var e := s + 1 + |Render(x.sub)|;
            && Block(buf, s, x.sub, e) && Here(buf, e + 1, Arrow(x.input)) && Here(buf, e + 2, x.file)
            && Solid(buf, e + 1) && |Render(x)| == |Render(x.sub)| + 3 + |x.file|
  {
    hide Block, Here;
    Split5(buf, s, "(", Render(x.sub), ")", Arrow(x.input), x.file);
    BlockHere(buf, s, x.sub, ")");
    HereAt(buf, s + 2 + |Render(x.sub)|, Arrow(x.input), 0);
  }

  lemma {:induction false} RedirectedTrip(buf: CString, s: int, x: Source)
    requires x.Redirected? && Here(buf, s, Render(x)) && Fits(x) && Ends(buf, s + |Render(x)|)
    ensures ReadsLine(buf, s, s + |Render(x)|, Mean(x))
    decreases x, 0
  {
    hide Here, ParseExec, ParseLine, Render, ParseRedirs, Text, IsWord, Arrow;
    var e := s + 1 + |Render(x.sub)|;
    RedirectedParts(buf, s, x);
    BlockEnds(buf, s, x.sub, e);
    LineTrip(buf, s + 1, x.sub);
    BlockExec(buf, s, e, Mean(x.sub));
    var c := ParseLine(buf, s + 1).cmd;
    RedirEnd(buf, c, e + 1, x.file, x.input);
    ExecToLine(buf, s, Redir(c, Span(e + 2, e + 2 + |x.file|), x.input), e + 2 + |x.file|);
  }

  lemma RedirEnd(buf: CString, c: Cmd, s: int, f: string, input: bool)
    requires Here(buf, s, Arrow(input)) && Here(buf, s + 1, f) && IsWord(f) && Ends(buf, s + 1 + |f|)
    ensures Within(buf, s) && ParseRedirs(buf, c, s) == Parsed(Redir(c, Span(s + 1, s + 1 + |f|), input), s + 1 + |f|)
    ensures Text(buf, Span(s + 1, s + 1 + |f|)) == f
  {
    HereAt(buf, s, Arrow(input), 0);
    hide Here, GetToken, Skip;
    WordToken(buf, s + 1, f);
    SolidSkip(buf, s);
    SolidSkip(buf, s + 1 + |f|);
    SymbolToken(buf, s);
    assert Peek(buf, s, "<>") && !Peek(buf, s + 1 + |f|, "<>");
    hide Peek;
  }

  // ---------------------------------------------------------------- the theorem

  lemma {:induction false} ItemsNoNul(items: seq<Item>)
    requires forall i | 0 <= i < |items| :: ItemOk(items[i])
    ensures '\0' !in ItemsText(items)
    decreases |items|
  {
    if items != [] {
      ItemsNoNul(items[1..]);
      assert ItemOk(items[0]);
      assert '\0' !in ItemText(items[0]);
    }
  }

  lemma {:induction false} RenderNoNul(x: Source)
    requires Fits(x)
    ensures '\0' !in Render(x)
    decreases x
  {
    match x
    case Simple(items) => ItemsNoNul(items);
    case Redirected(sub, f, input) => RenderNoNul(sub);
    case Pipeline(l, r) => RenderNoNul(l); RenderNoNul(r);
    case Sequence(l, r) => RenderNoNul(l); RenderNoNul(r);
    case Ampersand(sub) => RenderNoNul(sub);
  }

  lemma WholeTrip(buf: CString, x: Source)
    requires Fits(x) && buf == Render(x)
    ensures ParseCmd(buf).Parsed? && Deref(buf, ParseCmd(buf).cmd) == Mean(x)
  {
    hide ParseLine, Render, Mean, Deref, Fits;
    assert buf[0..|buf|] == buf;
    LineTrip(buf, 0, x);
  }

  /** `parsecmd` of any written command within MAXARGS gives a command that means the same. */
  lemma ParseUndoesRender(x: Source)
    requires Fits(x)
    ensures '\0' !in Render(x)
    ensures ParseCmd(Render(x)).Parsed? && Deref(Render(x), ParseCmd(Render(x)).cmd) == Mean(x)
  {
    hide *;
    RenderNoNul(x);
    WholeTrip(Render(x), x);
  }

  lemma TooMany(buf: CString, items: seq<Item>)
    requires (forall i | 0 <= i < |items| :: ItemOk(items[i])) && Words(items) >= MAXARGS && buf == ItemsText(items)
    ensures ParseCmd(buf) == Panic
  {
    hide ItemsText, ItemOk, Place, Words, ParseArgs, ParseRedirs, Skip, GetToken;
    assert buf[0..|buf|] == buf;
    RestTrip(buf, Exec([]), 0, 0, items);
    ItemsSolid(buf, 0, items);
    SolidSkip(buf, 0);
    ItemsStart(buf, 0, items);
    assert !Peek(buf, 0, "(");
    hide Peek;
    assert ParseExec(buf, 0) == Panic;
    hide ParseExec;
    assert ParsePipe(buf, 0) == Panic;
  }

  /** Twenty words or more are refused. */
  lemma TooManyArgs(items: seq<Item>)
    requires (forall i | 0 <= i < |items| :: ItemOk(items[i])) && Words(items) >= MAXARGS
    ensures '\0' !in ItemsText(items) && ParseCmd(ItemsText(items)) == Panic
  {
    hide *;
    ItemsNoNul(items);
    TooMany(ItemsText(items), items);
  }

  /** The source of a tree with every part in parentheses. */
  function Written(t: Tree): Source {
    match t
    case Run(args) => Simple(AsItems(args))
    case Redirect(sub, f, input) => Redirected(Written(sub), f, input)
    case Piped(l, r) => Pipeline(Written(l), Written(r))
    case Listed(l, r) => Sequence(Written(l), Written(r))
    case Background(sub) => Ampersand(Written(sub))
  }

  function AsItems(args: seq<string>): seq<Item> {
    if args == [] then [] else [Word(args[0])] + AsItems(args[1..])
  }

  predicate TreeFits(t: Tree) {
    match t
    case Run(args) => |args| < MAXARGS && forall i | 0 <= i < |args| :: IsWord(args[i])
    case Redirect(sub, f, _) => TreeFits(sub) && IsWord(f)
    case Piped(l, r) => TreeFits(l) && TreeFits(r)
    case Listed(l, r) => TreeFits(l) && TreeFits(r)
    case Background(sub) => TreeFits(sub)
  }

  lemma {:induction false} AsItemsMeans(args: seq<string>, done: seq<string>)
    requires forall i | 0 <= i < |args| :: IsWord(args[i])
    ensures Build(Run(done), AsItems(args)) == Run(done + args) && Words(AsItems(args)) == |args|
    ensures |AsItems(args)| == |args| && forall i | 0 <= i < |args| :: ItemOk(AsItems(args)[i])
    decreases |args|
  {
    if args == [] {
      assert done + args == done;
    } else {
      AsItemsMeans(args[1..], done + [args[0]]);
      assert AsItems(args)[1..] == AsItems(args[1..]);
      assert done + args == done + [args[0]] + args[1..];
    }
  }

  lemma {:induction false} WrittenMeans(t: Tree)
    requires TreeFits(t)
    ensures Fits(Written(t)) && Mean(Written(t)) == t
    decreases t
  {
    match t
    case Run(args) => AsItemsMeans(args, []); assert [] + args == args;
    case Redirect(sub, f, input) => WrittenMeans(sub);
    case Piped(l, r) => WrittenMeans(l); WrittenMeans(r);
    case Listed(l, r) => WrittenMeans(l); WrittenMeans(r);
    case Background(sub) => WrittenMeans(sub);
  }

  /** Any tree within MAXARGS, written with every part in parentheses, is read back as itself. */
  lemma TreeRoundTrip(t: Tree)
    requires TreeFits(t)
    ensures var text := Render(Written(t));
            '\0' !in text && ParseCmd(text).Parsed? && Deref(text, ParseCmd(text).cmd) == t
  {
    WrittenMeans(t);
    ParseUndoesRender(Written(t));
  }

  // ---------------------------------------------------------------- redirections among the words

  function WordsOf(items: seq<Item>): seq<string> {
    if items == [] then [] else (if items[0].Word? then [items[0].w] else []) + WordsOf(items[1..])
  }

  /** The redirections of a list of items around a command, the first one innermost. */
  function Wrap(t: Tree, items: seq<Item>): Tree
    decreases |items|
  {
    if items == [] then t
    else Wrap(if items[0].To? then Redirect(t, items[0].file, items[0].input) else t, items[1..])
  }

  function ExtendAll(t: Tree, ws: seq<string>): Tree
    decreases |ws|
  {
    if ws == [] then t else ExtendAll(Extend(t, ws[0]), ws[1..])
  }

  lemma {:induction false} ExtendUnder(t: Tree, f: string, input: bool, ws: seq<string>)
    ensures ExtendAll(Redirect(t, f, input), ws) == Redirect(ExtendAll(t, ws), f, input)
    decreases |ws|
  {
    if ws != [] {
      ExtendUnder(Extend(t, ws[0]), f, input, ws[1..]);
    }
  }

  lemma {:induction false} ExtendRun(done: seq<string>, ws: seq<string>)
    ensures ExtendAll(Run(done), ws) == Run(done + ws)
    decreases |ws|
  {
    if ws == [] {
      assert done + ws == done;
    } else {
      ExtendRun(done + [ws[0]], ws[1..]);
      assert done + ws == done + [ws[0]] + ws[1..];
    }
  }

  lemma {:induction false} BuildMeans(t: Tree, items: seq<Item>)
    ensures Build(t, items) == Wrap(ExtendAll(t, WordsOf(items)), items)
    decreases |items|
  {
    if items != [] {
      var x, tail := items[0], items[1..];
      if x.Word? {
        BuildMeans(Extend(t, x.w), tail);
        assert WordsOf(items)[1..] == WordsOf(tail);
      } else {
        BuildMeans(Redirect(t, x.file, x.input), tail);
        ExtendUnder(t, x.file, x.input, WordsOf(tail));
        assert WordsOf(items) == WordsOf(tail);
      }
    }
  }

  /** In a simple command all words are arguments of the one command, also those after a redirection,
      and the redirections go around it. */
  lemma ArgsAfterRedirection(items: seq<Item>)
    ensures Mean(Simple(items)) == Wrap(Run(WordsOf(items)), items)
  {
    BuildMeans(Run([]), items);
    ExtendRun([], WordsOf(items));
    assert [] + WordsOf(items) == WordsOf(items);
  }
}
