/** The regular expression matcher of grep (`match`, `matchhere`, `matchstar`), against a relation
    that says what a pattern means: which words each of its atoms stands for. */
module Regex {
  import opened Basics

  datatype Atom = Literal(c: char) | Any | Star(c: char) | End

  /** The atoms of a pattern: a character before '*' is repeated, even when it is '$' or '*'; '$' is
      special only as the last character, '.' everywhere. */
  function Atoms(re: CString): seq<Atom>
  {
    if re == [] then []
    else if |re| >= 2 && re[1] == '*' then [Star(re[0])] + Atoms(re[2..])
    else if re == "$" then [End]
    else [if re[0] == '.' then Any else Literal(re[0])] + Atoms(re[1..])
  }

  /** An atom as it is written. */
  function AtomText(a: Atom): string {
    match a
    case Literal(c) => [c]
    case Any => "."
    case Star(c) => [c, '*']
    case End => "$"
  }

  function Written(atoms: seq<Atom>): string {
    if atoms == [] then "" else AtomText(atoms[0]) + Written(atoms[1..])
  }

  /** What can be written and read back: '$' ends the pattern, or is not its last character; a '.' is no
      literal; and no '*' stands after a character that is not repeated. */
  predicate Readable(atoms: seq<Atom>) {
    atoms == [] ||
    var a, rest := atoms[0], atoms[1..];
    && Readable(rest)
    && match a
       case Star(c) => c != '\0'
       case End => rest == []
       case Literal(c) => c != '\0' && c != '.' && (c == '$' ==> rest != []) && !StarNext(rest)
       case Any => !StarNext(rest)
  }

  predicate StarNext(atoms: seq<Atom>) { atoms != [] && (atoms[0] == Literal('*') || atoms[0] == Star('*')) }

  /** The atoms of a pattern, written out, are the pattern; '$' is the end only as its last character. */
  lemma {:induction false} AtomsWritten(re: CString)
    ensures Written(Atoms(re)) == re && Readable(Atoms(re))
    decreases |re|
  {
    if re == "$" {
      assert Atoms(re) == [End];
      assert Written([End][1..]) == "";
    } else if re != [] {
      var rest := if |re| >= 2 && re[1] == '*' then re[2..] else re[1..];
      AtomsWritten(rest);
      assert Atoms(re)[1..] == Atoms(rest);
      FirstChar(Atoms(rest));
      if re[0] == '$' && rest == [] {
        assert re == "$*";
      }
    }
  }

  lemma FirstChar(atoms: seq<Atom>)
    ensures StarNext(atoms) <==> Written(atoms) != [] && Written(atoms)[0] == '*'
  {
  }

  /** And atoms that can be written are read back. */
  lemma {:induction false} WrittenAtoms(atoms: seq<Atom>)
    requires Readable(atoms)
    ensures '\0' !in Written(atoms) && Atoms(Written(atoms)) == atoms
    decreases |atoms|
  {
    if atoms != [] {
      var a, rest := atoms[0], atoms[1..];
      WrittenAtoms(rest);
      FirstChar(rest);
      var re := Written(atoms);
      assert atoms == [a] + rest;
      if a.Star? {
        assert re[2..] == Written(rest);
      } else {
        assert re[1..] == Written(rest);
        assert a == End ==> re == "$";
        if a == Literal('$') {
          assert AtomText(rest[0]) != "";
        }
      }
    }
  }

  /** The words an atom stands for. */
  predicate Stands(a: Atom, w: string) {
    match a
    case Literal(c) => w == [c]
    case Any => |w| == 1
    case Star(c) => forall k | 0 <= k < |w| :: w[k] == c || c == '.'
    case End => w == []
  }

  function Concat(words: seq<string>): string {
    if words == [] then [] else words[0] + Concat(words[1..])
  }

  /** One word for each atom, end to end from the start of the text, up to its end if '$' asks so. */
  ghost predicate Parse(atoms: seq<Atom>, words: seq<string>, text: string) {
    && |words| == |atoms|
    && (forall i | 0 <= i < |atoms| :: Stands(atoms[i], words[i]))
    && Concat(words) <= text
    && (atoms != [] && atoms[|atoms| - 1] == End ==> Concat(words) == text)
  }

  /** The pattern matches at the start of the text. */
  ghost predicate Matches(atoms: seq<Atom>, text: string) {
    exists words :: Parse(atoms, words, text)
  }

  /** The first atom takes the first k characters. */
  ghost predicate Splits(a: Atom, rest: seq<Atom>, text: string, k: int) {
    0 <= k <= |text| && Stands(a, text[..k]) && Matches(rest, text[k..])
  }

  /** The whole pattern matches: somewhere in the text, or at its start after '^'. */
  ghost predicate Found(re: CString, text: CString) {
    if re != [] && re[0] == '^' then Matches(Atoms(re[1..]), text)
    else exists i | 0 <= i <= |text| :: Matches(Atoms(re), text[i..])
  }

  lemma SplitOff(a: Atom, rest: seq<Atom>, words: seq<string>, text: string)
    requires Parse([a] + rest, words, text) && (a == End ==> rest == [])
    ensures |words[0]| <= |text| && Splits(a, rest, text, |words[0]|)
  {
    var k := |words[0]|;
    var atoms := [a] + rest;
    assert atoms[0] == a;
    assert Concat(words) == words[0] + Concat(words[1..]);
    assert text[..k] == words[0];
    assert forall i | 0 <= i < |rest| :: rest[i] == atoms[i + 1];
    assert Parse(rest, words[1..], text[k..]);
  }

  lemma JoinOn(a: Atom, rest: seq<Atom>, text: string, k: int)
    requires Splits(a, rest, text, k) && a != End
    ensures Matches([a] + rest, text)
  {
    var words :| Parse(rest, words, text[k..]);
    var all := [text[..k]] + words;
    assert all[1..] == words;
    assert text == text[..k] + text[k..];
    assert Parse([a] + rest, all, text);
  }

  /** An atom other than '$' followed by more: some first part stands for the atom and what is left
      matches the rest. */
  lemma MatchesCons(a: Atom, rest: seq<Atom>, text: string)
    requires a != End
    ensures Matches([a] + rest, text) <==> exists k :: Splits(a, rest, text, k)
  {
    if Matches([a] + rest, text) {
      var words :| Parse([a] + rest, words, text);
      SplitOff(a, rest, words, text);
    }
    if k :| Splits(a, rest, text, k) {
      JoinOn(a, rest, text, k);
    }
  }

  lemma MatchesOne(a: Atom, rest: seq<Atom>, text: string)
    requires a.Literal? || a.Any?
    ensures Matches([a] + rest, text) <==> text != [] && Stands(a, [text[0]]) && Matches(rest, text[1..])
  {
    hide Matches;
    MatchesCons(a, rest, text);
    if text != [] {
      assert text[..1] == [text[0]];
      assert Stands(a, [text[0]]) && Matches(rest, text[1..]) ==> Splits(a, rest, text, 1);
    }
  }

  lemma MatchesEmpty(text: string)
    ensures Matches([], text)
  {
    assert Parse([], [], text);
  }

  lemma MatchesEnd(text: string)
    ensures Matches([End], text) <==> text == []
  {
    if text == [] {
      var words: seq<string> := [[]];
      assert Concat(words) == words[0] + Concat(words[1..]);
      assert Parse([End], words, text);
    }
    forall words | Parse([End], words, text) ensures text == [] {
      assert Concat(words) == words[0] + Concat(words[1..]);
    }
  }

  /** `matchhere`: the pattern from re+i matches at the start of text+j. No pointer passes a terminator. */
  method MatchHere(re: CString, i: nat, text: CString, j: nat) returns (r: bool)
    requires i <= |re| && j <= |text|
    ensures r <==> Matches(Atoms(re[i..]), text[j..])
    decreases |re| - i, 0
  {
    hide Matches;
    var rest, here := re[i..], text[j..];
    if At(re, i) == '\0' {
      MatchesEmpty(here);
      return true;
    }
    if At(re, i + 1) == '*' {
      assert rest[2..] == re[i + 2..];
      r := MatchStar(At(re, i), re, i + 2, text, j);
      return;
    }
    if At(re, i) == '$' && At(re, i + 1) == '\0' {
      assert rest == "$";
      MatchesEnd(here);
      return At(text, j) == '\0';
    }
    assert rest[1..] == re[i + 1..];
    MatchesOne(if rest[0] == '.' then Any else Literal(rest[0]), Atoms(re[i + 1..]), here);
    if At(text, j) != '\0' && (At(re, i) == '.' || At(re, i) == At(text, j)) {
      assert here[1..] == text[j + 1..];
      r := MatchHere(re, i + 1, text, j + 1);
      return;
    }
    return false;
  }

  /** `matchstar`: c* and then the pattern from re+i match at the start of text+j. */
  method MatchStar(c: char, re: CString, i: nat, text: CString, j: nat) returns (r: bool)
    requires c != '\0' && i <= |re| && j <= |text|
    ensures r <==> Matches([Star(c)] + Atoms(re[i..]), text[j..])
    decreases |re| - i, 1
  {
    var rest, here := Atoms(re[i..]), text[j..];
    MatchesCons(Star(c), rest, here);
    var t: nat := j;
    while true
      invariant j <= t <= |text|
      invariant Stands(Star(c), here[..t - j])
      invariant forall k | 0 <= k < t - j :: !Splits(Star(c), rest, here, k)
      decreases |text| - t
    {
      assert here[t - j..] == text[t..];
      r := MatchHere(re, i, text, t);
      if r {
        assert Splits(Star(c), rest, here, t - j);
        return;
      }
      if At(text, t) != '\0' && (At(text, t) == c || c == '.') {
        t := t + 1;
      } else {
        forall k | t - j < k <= |here| ensures !Splits(Star(c), rest, here, k) {
          assert here[..k][t - j] == text[t];
        }
        return false;
      }
    }
  }

  /** `match`: some suffix of the text, the empty one included, or the text itself after '^'. */
  method Match(re: CString, text: CString) returns (r: bool)
    ensures r <==> Found(re, text)
  {
    if At(re, 0) == '^' {
      assert text[0..] == text;
      r := MatchHere(re, 1, text, 0);
      return;
    }
    assert re[0..] == re;
    var t: nat := 0;
    while true
      invariant t <= |text|
      invariant forall i | 0 <= i < t :: !Matches(Atoms(re), text[i..])
      decreases |text| - t
    {
      r := MatchHere(re, 0, text, t);
      if r || At(text, t) == '\0' {
        return;
      }
      t := t + 1;
    }
  }
}
