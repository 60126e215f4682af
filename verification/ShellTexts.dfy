/** Texts that are not plain: what the guard makes of them, and what a shell does. */
module ShellTexts {
  import opened Text
  import opened Guard
  import opened ShellQuotes

  /** The reading follows the text, and this is whether the shell acts on a backquote of it. */
  ghost predicate Reads(s: string, p: Place, acts: bool) {
    Known(s, p) && (ShellActs(s, p) <==> acts)
  }

  lemma Moves(s: string, p: Place, acts: bool)
    requires s != [] && !Odd(s, p) && !ShellTurn(s, p).acts && Reads(s[ShellTurn(s, p).width..], ShellTurn(s, p).next, acts)
    ensures Reads(s, p, acts)
  {
    hide Odd, ShellTurn;
  }

  lemma AtEnd(p: Place)
    ensures Reads([], p, false)
  {
  }

  // ---- outside quotes -----------------------------------------------------------------------

  predicate Letter(c: char) {
    'a' <= c <= 'z' || 'A' <= c <= 'Z'
  }

  ghost predicate Open(p: Place) {
    p.mode.Words? && p.naming == None
  }

  lemma {:induction false} Word(w: string, rest: string, p: Place, acts: bool)
    requires Open(p) && w != [] && (forall c :: c in w ==> Letter(c)) && Reads(rest, p.(mode := Words(false)), acts)
    ensures Reads(w + rest, p, acts)
    decreases |w|
  {
    hide Reads;
    var s := w + rest;
    var q := p.(mode := Words(false));
    assert s[0] == w[0] && w[0] in w && s[1..] == w[1..] + rest;
    assert forall c :: c in w[1..] ==> c in w;
    if |w| == 1 {
      assert s[1..] == rest;
    } else {
      Word(w[1..], rest, q, acts);
    }
    LetterTurn(s, p);
    Moves(s, p, acts);
  }

  lemma LetterTurn(s: string, p: Place)
    requires Open(p) && s != [] && Letter(s[0])
    ensures ShellTurn(s, p) == Turn(1, p.(mode := Words(false)), false) && !Odd(s, p)
  {
    assert !("((" <= s) && !("<<<" <= s);
  }

  lemma Space(rest: string, p: Place, acts: bool)
    requires Open(p) && Reads(rest, p.(mode := Words(true)), acts)
    ensures Reads(" " + rest, p, acts)
  {
    hide Reads;
    var s := " " + rest;
    assert s[0] == ' ' && s[1..] == rest;
    assert !("((" <= s) && !("<<<" <= s);
    Moves(s, p, acts);
  }

  lemma Backquote(rest: string, p: Place)
    requires Open(p)
    ensures Reads("`" + rest, p, true)
  {
    var s := "`" + rest;
    assert s[0] == '`';
    assert !("((" <= s) && !("<<<" <= s);
  }

  // ---- comments -----------------------------------------------------------------------------

  lemma Hash(rest: string, p: Place, acts: bool)
    requires Open(p) && p.mode.start && Reads(rest, p.(mode := InComment), acts)
    ensures Reads("#" + rest, p, acts)
  {
    hide Reads;
    var s := "#" + rest;
    assert s[0] == '#' && s[1..] == rest;
    assert !("((" <= s) && !("<<<" <= s);
    Moves(s, p, acts);
  }

  lemma {:induction false} Comment(w: string, rest: string, p: Place, acts: bool)
    requires p.mode.InComment? && '\n' !in w && Reads(rest, p, acts)
    ensures Reads(w + rest, p, acts)
    decreases |w|
  {
    hide Reads;
    var s := w + rest;
    if w == [] {
      assert s == rest;
    } else {
      assert s[0] == w[0] && w[0] in w && s[1..] == w[1..] + rest;
      assert forall c :: c in w[1..] ==> c in w;
      Comment(w[1..], rest, p, acts);
      Moves(s, p, acts);
    }
  }

  lemma CommentEnds(rest: string, p: Place, acts: bool)
    requires p.mode.InComment? && p.naming == None && p.pending == [] && Reads(rest, p.(mode := Words(true)), acts)
    ensures Reads("\n" + rest, p, acts)
  {
    hide Reads;
    var s := "\n" + rest;
    assert s[0] == '\n' && s[1..] == rest;
    Moves(s, p, acts);
  }

  // ---- quotes and substitutions -------------------------------------------------------------

  lemma {:induction false} SingleRun(x: string, rest: string, p: Place, acts: bool)
    requires p.mode.InSingle? && p.naming == None && '\'' !in x && Reads(rest, p.(mode := Words(false)), acts)
    ensures Reads(x + ("'" + rest), p, acts)
    decreases |x|
  {
    hide Reads;
    var s := x + ("'" + rest);
    if x == [] {
      assert s[0] == '\'' && s[1..] == rest;
    } else {
      assert s[0] == x[0] && x[0] in x && s[1..] == x[1..] + ("'" + rest);
      assert forall c :: c in x[1..] ==> c in x;
      SingleRun(x[1..], rest, p, acts);
    }
    Moves(s, p, acts);
  }

  lemma SingleQuoted(x: string, rest: string, p: Place, acts: bool)
    requires Open(p) && '\'' !in x && Reads(rest, p.(mode := Words(false)), acts)
    ensures Reads("'" + (x + ("'" + rest)), p, acts)
  {
    hide Reads;
    var more := x + ("'" + rest);
    var s := "'" + more;
    SingleRun(x, rest, p.(mode := InSingle), acts);
    assert s[0] == '\'' && s[1..] == more;
    assert !("((" <= s) && !("<<<" <= s);
    Moves(s, p, acts);
  }

  lemma DoubleOpens(rest: string, p: Place, acts: bool)
    requires Open(p) && Reads(rest, p.(mode := InDouble), acts)
    ensures Reads("\"" + rest, p, acts)
  {
    hide Reads;
    var s := "\"" + rest;
    assert s[0] == '"' && s[1..] == rest;
    assert !("((" <= s) && !("<<<" <= s);
    Moves(s, p, acts);
  }

  lemma DoubleEnds(rest: string, p: Place, acts: bool)
    requires p.mode.InDouble? && Reads(rest, p.(mode := Words(false)), acts)
    ensures Reads("\"" + rest, p, acts)
  {
    hide Reads;
    var s := "\"" + rest;
    assert s[0] == '"' && s[1..] == rest;
    Moves(s, p, acts);
  }

  lemma SubstitutionOpens(rest: string, p: Place, acts: bool)
    requires p.mode.InDouble? && p.naming == None && p.pending == [] && rest != [] && rest[0] != '('
    requires Find("$(" + rest, "case") == None && Reads(rest, Substitution(p, InDouble), acts)
    ensures Reads("$(" + rest, p, acts)
  {
    hide Reads, Find;
    var s := "$(" + rest;
    assert s[0] == '$' && s[1] == '(' && s[2] == rest[0] && s[2..] == rest;
    assert !("$((" <= s);
    Moves(s, p, acts);
  }

  lemma SubstitutionEnds(rest: string, p: Place, acts: bool)
    requires Open(p) && p.parens == 0 && p.outer != [] && p.pending == []
    requires var f := p.outer[0]; Reads(rest, Place(f.mode, f.parens, f.naming, f.pending, p.outer[1..]), acts)
    ensures Reads(")" + rest, p, acts)
  {
    hide Reads;
    var s := ")" + rest;
    assert s[0] == ')' && s[1..] == rest;
    assert !("((" <= s) && !("<<<" <= s) && !("<(" <= s) && !(">(" <= s);
    Moves(s, p, acts);
  }

  // ---- here-documents -----------------------------------------------------------------------

  const END := Here("E", false, false, false)

  const NAMING := Here("", false, false, true)

  lemma LineEnds(rest: string, p: Place, acts: bool)
    requires p.mode == Words(false) && p.naming == Some(END) && p.pending == []
    requires Reads(rest, p.(mode := InBody(END, true), naming := None), acts)
    ensures Reads("\n" + rest, p, acts)
  {
    hide Reads;
    var s := "\n" + rest;
    assert s[0] == '\n' && s[1..] == rest && !("((" <= s) && !("<<<" <= s);
    assert [] + [END] == [END] && [END][1..] == [];
    Moves(s, p, acts);
  }

  lemma NameEnd(rest: string, p: Place, acts: bool)
    requires p.mode == Words(true) && p.naming == Some(NAMING) && Reads(rest, p.(mode := Words(false), naming := Some(END)), acts)
    ensures Reads("E" + rest, p, acts)
  {
    hide Reads, ShellTurn, Odd;
    var s := "E" + rest;
    assert s[0] == 'E' && s[1..] == rest;
    NameTurn(s, p);
    Moves(s, p, acts);
  }

  lemma NameTurn(s: string, p: Place)
    requires p.mode == Words(true) && p.naming == Some(NAMING) && s != [] && s[0] == 'E'
    ensures ShellTurn(s, p) == Turn(1, p.(mode := Words(false), naming := Some(END)), false) && !Odd(s, p)
  {
    assert "" + ['E'] == "E";
    assert !("((" <= s) && !("<<<" <= s);
  }

  lemma Operators(rest: string, p: Place, acts: bool)
    requires Open(p) && rest != [] && rest[0] != '<' && Reads(rest, p.(mode := Words(true), naming := Some(NAMING)), acts)
    ensures Reads("<<" + rest, p, acts)
  {
    hide Reads, ShellTurn, Odd;
    var s := "<<" + rest;
    assert s[0] == '<' && s[1] == '<' && s[2] == rest[0] && s[2..] == rest && !("((" <= s) && !("<<<" <= s);
    OperatorsTurn(s, p);
    Moves(s, p, acts);
  }

  lemma OperatorsTurn(s: string, p: Place)
    requires Open(p) && |s| > 2 && s[0] == '<' && s[1] == '<' && !("<<<" <= s)
    ensures ShellTurn(s, p) == Turn(2, p.(mode := Words(true), naming := Some(NAMING)), false) && !Odd(s, p)
  {
    assert !("((" <= s);
  }

  /** `<<E` and the end of the line: the document starts. */
  lemma Announce(rest: string, p: Place, acts: bool)
    requires Open(p) && p.pending == [] && Reads(rest, p.(mode := InBody(END, true)), acts)
    ensures Reads("<<" + ("E" + ("\n" + rest)), p, acts)
  {
    hide Reads;
    LineEnds(rest, p.(mode := Words(false), naming := Some(END)), acts);
    NameEnd("\n" + rest, p.(mode := Words(true), naming := Some(NAMING)), acts);
    Operators("E" + ("\n" + rest), p, acts);
  }

  predicate BodyChar(c: char) {
    c != '\\' && c != '`' && c != '$' && c != '\n'
  }

  lemma {:induction false} Body(w: string, rest: string, p: Place, acts: bool)
    requires p.mode.InBody? && p.mode.here == END && w != [] && (forall c :: c in w ==> BodyChar(c)) && (p.mode.opening ==> w[0] != 'E')
    requires Reads(rest, p.(mode := InBody(END, false)), acts)
    ensures Reads(w + rest, p, acts)
    decreases |w|
  {
    hide Reads;
    var s := w + rest;
    var q := p.(mode := InBody(END, false));
    assert s[0] == w[0] && w[0] in w && s[1..] == w[1..] + rest;
    assert forall c :: c in w[1..] ==> c in w;
    if |w| == 1 {
      assert s[1..] == rest;
    } else {
      Body(w[1..], rest, q, acts);
    }
    assert LineOf(s)[0] == s[0];
    Moves(s, p, acts);
  }

  lemma BodyBackquote(rest: string, p: Place)
    requires p.mode == InBody(END, false)
    ensures Reads("`" + rest, p, true)
  {
    var s := "`" + rest;
    assert s[0] == '`';
  }

  // ---- what the scan makes of it --------------------------------------------------------------

  lemma {:induction false} SingleToTheEnd(x: string)
    requires '\'' !in x
    ensures Subst(x, Single).kept == []
  {
    if x != [] {
      assert x[0] in x && forall c :: c in x[1..] ==> c in x;
      SingleToTheEnd(x[1..]);
    }
  }

  lemma KeepsFirst(c: char, x: string)
    requires c != '\'' && c != '"'
    ensures Subst([c] + x, Outside) == Keep([c], Subst(x, Outside))
  {
    var s := [c] + x;
    assert s[0] == c && s[1..] == x;
  }

  lemma {:induction false} UnquotedIsKept(x: string)
    requires '\'' !in x && '"' !in x
    ensures Subst(x, Outside) == Scan(x, Outside)
  {
    hide Subst;
    if x == [] {
      assert Subst([], Outside) == Scan([], Outside) by { NothingKept(); }
    } else {
      assert x[0] in x && forall c :: c in x[1..] ==> c in x;
      UnquotedIsKept(x[1..]);
      KeepsFirst(x[0], x[1..]);
      assert x == [x[0]] + x[1..];
    }
  }

  lemma NothingKept()
    ensures Subst([], Outside) == Scan([], Outside)
  {
  }

  /** From a lone apostrophe on nothing is kept. */
  lemma ApostropheHidesTheRest(pre: string, x: string)
    requires '\'' !in pre && '"' !in pre && '\'' !in x
    ensures Subst(pre + ("'" + x), Outside).kept == pre
  {
    hide SubstStep;
    UnquotedIsKept(pre);
    SubstSplits(pre, "'" + x, Outside);
    assert ("'" + x)[0] == '\'' && ("'" + x)[1..] == x;
    Apostrophe("'" + x);
    SingleToTheEnd(x);
    assert pre + [] == pre;
  }

  lemma Apostrophe(s: string)
    requires s != [] && s[0] == '\''
    ensures Subst(s, Outside).kept == Subst(s[1..], Single).kept
  {
    assert [] + Subst(s[1..], Single).kept == Subst(s[1..], Single).kept;
  }

  // ---- the texts ------------------------------------------------------------------------------

  /** An apostrophe in a comment: the shell runs what the next line quotes, and the guard sees none of
      it. */
  lemma ApostropheInComment()
    ensures var text := "#'\npaos `x`";
            Reads(text, START, true) && '`' !in Subst(text, Outside).kept
  {
    hide Reads, Subst;
    var line := "\n" + ("paos" + (" " + ("`" + "x`")));
    Backquote("x`", START);
    Space("`" + "x`", START.(mode := Words(false)), true);
    Word("paos", " " + ("`" + "x`"), START, true);
    CommentEnds("paos" + (" " + ("`" + "x`")), START.(mode := InComment), true);
    Comment("'", line, START.(mode := InComment), true);
    Hash("'" + line, START, true);
    assert "#" + ("'" + line) == "#'\npaos `x`";
    ApostropheHidesTheRest("#", line);
  }

  /** A backquote in a comment: the guard refuses what the shell ignores. */
  lemma BackquoteInComment()
    ensures var text := "paos who # `x`";
            Reads(text, START, false) && '`' in Subst(text, Outside).kept
  {
    hide Reads, Subst;
    var inside := START.(mode := Words(false));
    AtEnd(START.(mode := InComment));
    Comment(" `x`", [], START.(mode := InComment), false);
    assert " `x`" + [] == " `x`";
    Hash(" `x`", START, false);
    Space("#" + " `x`", inside, false);
    Word("who", " " + ("#" + " `x`"), START, false);
    Space("who" + (" " + ("#" + " `x`")), inside, false);
    Word("paos", " " + ("who" + (" " + ("#" + " `x`"))), START, false);
    assert "paos" + (" " + ("who" + (" " + ("#" + " `x`")))) == "paos who # `x`";
    UnquotedIsKept("paos who # `x`");
    assert "paos who # `x`"[11] == '`';
  }

  lemma CaseLetters(s: string, i: nat)
    requires i + 4 <= |s| && s[i..i + 4] == "case"
    ensures s[i] == 'c' && s[i + 1] == 'a'
  {
    var t := s[i..i + 4];
    assert t[0] == s[i] && t[1] == s[i + 1];
  }

  lemma NoCase(s: string)
    requires forall i :: 0 <= i < |s| - 1 && s[i] == 'c' ==> s[i + 1] != 'a'
    ensures Find(s, "case") == None
  {
    hide Find;
    if Find(s, "case").Some? {
      CaseLetters(s, Find(s, "case").value);
      assert false;
    }
  }

  lemma EchoHasNoCase()
    ensures Find("$(echo 'a`b')\"", "case") == None
  {
    var s := "$(echo 'a`b')\"";
    assert forall i :: 0 <= i < |s| && s[i] == 'c' ==> i == 3;
    assert s[4] == 'h';
    NoCase(s);
  }

  const ECHO := "'" + ("a`b" + ("'" + (")" + "\"")))

  /** From inside the substitution to the end. */
  lemma QuotedAgain(double: Place)
    requires double == START.(mode := InDouble)
    ensures Reads("echo" + (" " + ECHO), Substitution(double, InDouble), false)
  {
    hide Reads;
    var inner := Substitution(double, InDouble);
    var word := inner.(mode := Words(false));
    AtEnd(START.(mode := Words(false)));
    DoubleEnds("", double, false);
    assert "\"" + "" == "\"";
    assert Place(InDouble, 0, None, [], []) == double && word.outer[1..] == [];
    SubstitutionEnds("\"", word, false);
    SingleQuoted("a`b", ")" + "\"", inner, false);
    Space(ECHO, word, false);
    Word("echo", " " + ECHO, inner, false);
  }

  /** A backquote that is quoted again inside a substitution: refused, and the shell ignores it. */
  lemma BackquoteInSubstitution()
    ensures var text := "paos note \"$(echo 'a`b')\"";
            Reads(text, START, false) && '`' in Subst(text, Outside).kept
  {
    hide Reads, Subst, Strip, Find, ECHO;
    var inside := START.(mode := Words(false));
    var double := START.(mode := InDouble);
    var rest := "echo" + (" " + ECHO);
    QuotedAgain(double);
    EchoText();
    EchoHasNoCase();
    SubstitutionOpens(rest, double, false);
    DoubleOpens("$(" + rest, START, false);
    var note := "\"" + ("$(" + rest);
    Space(note, inside, false);
    Word("note", " " + note, START, false);
    Space("note" + (" " + note), inside, false);
    Word("paos", " " + ("note" + (" " + note)), START, false);
    NoteText();
    ScanOfSubstitution();
  }

  lemma EchoText()
    ensures "$(" + ("echo" + (" " + ECHO)) == "$(echo 'a`b')\""
  {
  }

  lemma NoteText()
    ensures "paos" + (" " + ("note" + (" " + ("\"" + "$(echo 'a`b')\"")))) == "paos note \"$(echo 'a`b')\""
  {
  }

  lemma KeepsQuoted(pre: string, x: string, i: nat)
    requires '\'' !in pre && '"' !in pre && '"' !in x && '\\' !in x && i < |x| && x[i] == '`'
    ensures '`' in Subst(pre + ("\"" + x + "\"") + "", Outside).kept
  {
    hide Subst, Strip;
    UnquotedIsKept(pre);
    SameQuoteState(pre, Outside);
    DoubleQuotesExpand(pre, x, "");
  }

  lemma ScanOfSubstitution()
    ensures '`' in Subst("paos note \"$(echo 'a`b')\"", Outside).kept
  {
    hide Subst;
    var (pre, x) := ("paos note ", "$(echo 'a`b')");
    KeepsQuoted(pre, x, 9);
    assert pre + ("\"" + x + "\"") + "" == "paos note \"$(echo 'a`b')\"";
  }

  /** An apostrophe in a here-document: the shell expands the line, and the guard sees none of it. */
  lemma ApostropheInDocument()
    ensures var text := "cat <<E\nit's `x`\nE";
            Reads(text, START, true) && '`' !in Subst(text, Outside).kept
  {
    hide Reads, Subst;
    var inside := START.(mode := Words(false));
    var body := START.(mode := InBody(END, true));
    BodyBackquote("x`\nE", START.(mode := InBody(END, false)));
    Body("it's ", "`" + "x`\nE", body, true);
    var lines := "it's " + ("`" + "x`\nE");
    Announce(lines, START, true);
    var document := "<<" + ("E" + ("\n" + lines));
    Space(document, inside, true);
    Word("cat", " " + document, START, true);
    assert "cat" + (" " + document) == "cat <<E\nit's `x`\nE";
    ApostropheHidesTheRest("cat <<E\nit", "s `x`\nE");
    assert "cat <<E\nit" + ("'" + "s `x`\nE") == "cat <<E\nit's `x`\nE";
  }

  /** An escaped backquote outside quotes: refused, and the shell ignores it. */
  lemma EscapedBackquoteIsKept()
    ensures Reads("\\`", START, false) && '`' in Subst("\\`", Outside).kept
  {
    hide Reads;
    var s := "\\`";
    AtEnd(START.(mode := Words(false)));
    assert s[2..] == [] && !("((" <= s) && !("<<<" <= s);
    Moves(s, START, false);
    UnquotedIsKept(s);
  }
}
