/** The command guard's scanners against the reading of a shell.

    The shell's side follows sections 2.2 (quoting), 2.3 (tokens and comments), 2.6.3 (command
    substitution) and 2.7.4 (here-documents) of the POSIX Shell Command Language, one character or one
    pair at a time, up to the first backquote that it acts on: what comes after that one is read as a
    command of its own.  `Odd` names the constructs this reading does not follow. */
module ShellQuotes {
  import opened Text
  import opened Guard

  // ---- where a shell is in a text -----------------------------------------------------------

  /** A here-document announced: its delimiter, whether leading tabs are stripped (`<<-`), whether any
      of the delimiter was quoted; `dash` while a `-` would still belong to the operator. */
  datatype Here = Here(delim: string, tabs: bool, quoted: bool, dash: bool)

  datatype Mode =
    | Words(start: bool)               // outside quotes; at the start of a word, or inside one
    | InSingle
    | InDouble
    | InComment
    | InBody(here: Here, opening: bool)  // in a here-document; at the start of a line, or inside one
    | InClosing                        // on the line that closes it

  /** What a command substitution returns to. */
  datatype Frame = Frame(mode: Mode, parens: nat, naming: Option<Here>, pending: seq<Here>)

  /** `naming` is the delimiter being read, `pending` the here-documents that start at the next newline. */
  datatype Place = Place(mode: Mode, parens: nat, naming: Option<Here>, pending: seq<Here>, outer: seq<Frame>)

  datatype Turn = Turn(width: nat, next: Place, acts: bool)

  const START := Place(Words(true), 0, None, [], [])

  predicate Blank(c: char) {
    c == ' ' || c == '\t'
  }

  predicate Operator(c: char) {
    c == ';' || c == '&' || c == '|' || c == '(' || c == ')' || c == '<' || c == '>'
  }

  /** What a backslash escapes in double quotes and, but for the double quote, in a here-document. */
  predicate Escapable(c: char) {
    c == '$' || c == '`' || c == '"' || c == '\\' || c == '\n'
  }

  // ---- naming a here-document -----------------------------------------------------------------

  predicate Begun(h: Here) {
    h.delim != "" || h.quoted
  }

  function Note(p: Place, c: char): Place {
    if p.naming.None? then p
    else
      var h := p.naming.value;
      if c == '-' && h.dash then p.(naming := Some(h.(tabs := true, dash := false)))
      else p.(naming := Some(h.(delim := h.delim + [c], dash := false)))
  }

  function NoteQuote(p: Place): Place {
    if p.naming.None? then p else p.(naming := Some(p.naming.value.(quoted := true, dash := false)))
  }

  /** The end of a word: a delimiter that has begun is complete. */
  function EndWord(p: Place): Place {
    if p.naming.None? then p
    else if Begun(p.naming.value) then p.(naming := None, pending := p.pending + [p.naming.value])
    else p.(naming := Some(p.naming.value.(dash := false)))
  }

  /** The end of a line of commands: the first announced here-document starts. */
  function NextLine(p: Place): Place {
    if p.pending == [] then p.(mode := Words(true), naming := None)
    else p.(mode := InBody(p.pending[0], true), naming := None, pending := p.pending[1..])
  }

  function LineOf(s: string): string {
    if s == [] || s[0] == '\n' then [] else [s[0]] + LineOf(s[1..])
  }

  function WithoutTabs(s: string): string {
    if s != [] && s[0] == '\t' then WithoutTabs(s[1..]) else s
  }

  predicate Closes(s: string, h: Here) {
    (if h.tabs then WithoutTabs(LineOf(s)) else LineOf(s)) == h.delim
  }

  // ---- one turn of the shell --------------------------------------------------------------------

  /** `$(`: a command of its own, until the parenthesis that closes it. */
  function Substitution(p: Place, back: Mode): Place {
    Place(Words(true), 0, None, [], [Frame(back, p.parens, p.naming, p.pending)] + p.outer)
  }

  function Closed(p: Place): Place {
    if p.parens > 0 then p.(parens := p.parens - 1, mode := Words(true))
    else if p.outer == [] then p.(mode := Words(true))
    else var f := p.outer[0]; Place(f.mode, f.parens, f.naming, f.pending, p.outer[1..])
  }

  function WordsTurn(s: string, p: Place): (t: Turn)
    requires s != [] && p.mode.Words?
    ensures 1 <= t.width <= |s|
  {
    var c := s[0];
    var inside := p.(mode := Words(false));
    if c == '\\' && |s| > 1 then Turn(2, if s[1] == '\n' then p else Note(NoteQuote(inside), s[1]), false)
    else if c == '\'' then Turn(1, NoteQuote(p).(mode := InSingle), false)
    else if c == '"' then Turn(1, NoteQuote(p).(mode := InDouble), false)
    else if c == '`' then Turn(1, Note(inside, c), p.naming.None?)
    else if c == '#' && p.mode.start then Turn(1, p.(mode := InComment), false)
    else if c == '$' && |s| > 1 && s[1] == '(' then Turn(2, Substitution(p, Words(false)), false)
    else if c == '<' && |s| > 1 && s[1] == '<' then
      Turn(2, EndWord(p).(mode := Words(true), naming := Some(Here("", false, false, true))), false)
    else if c == '\n' then Turn(1, NextLine(EndWord(p)), false)
    else if c == '(' then Turn(1, EndWord(p).(mode := Words(true), parens := p.parens + 1), false)
    else if c == ')' then Turn(1, Closed(EndWord(p)), false)
    else if Blank(c) || Operator(c) then Turn(1, EndWord(p).(mode := Words(true)), false)
    else Turn(1, Note(inside, c), false)
  }

  /** After a backslash in double quotes nothing is special, escaped or not. */
  function DoubleTurn(s: string, p: Place): (t: Turn)
    requires s != [] && p.mode.InDouble?
    ensures 1 <= t.width <= |s|
  {
    var c := s[0];
    if c == '\\' && |s| > 1 then Turn(2, if s[1] == '\n' then p else Note(if Escapable(s[1]) then p else Note(p, c), s[1]), false)
    else if c == '"' then Turn(1, p.(mode := Words(false)), false)
    else if c == '`' then Turn(1, Note(p, c), p.naming.None?)
    else if c == '$' && |s| > 1 && s[1] == '(' then Turn(2, Substitution(p, InDouble), false)
    else Turn(1, Note(p, c), false)
  }

  function BodyTurn(s: string, p: Place): (t: Turn)
    requires s != [] && p.mode.InBody?
    ensures 1 <= t.width <= |s|
  {
    var (c, h) := (s[0], p.mode.here);
    if p.mode.opening && Closes(s, h) then Turn(1, if c == '\n' then NextLine(p) else p.(mode := InClosing), false)
    else if !h.quoted && c == '\\' && |s| > 1 && Escapable(s[1]) && s[1] != '"' then Turn(2, p.(mode := InBody(h, false)), false)
    else Turn(1, p.(mode := InBody(h, c == '\n')), !h.quoted && c == '`')
  }

  function ShellTurn(s: string, p: Place): (t: Turn)
    requires s != []
    ensures 1 <= t.width <= |s|
  {
    match p.mode
    case Words(_) => WordsTurn(s, p)
    case InSingle => Turn(1, if s[0] == '\'' then p.(mode := Words(false)) else Note(p, s[0]), false)
    case InDouble => DoubleTurn(s, p)
    case InComment => Turn(1, if s[0] == '\n' then NextLine(EndWord(p)) else p, false)
    case InBody(_, _) => BodyTurn(s, p)
    case InClosing => Turn(1, if s[0] == '\n' then NextLine(p) else p, false)
  }

  /** Whether a shell acts on a backquote of the text. */
  ghost predicate ShellActs(s: string, p: Place)
    decreases |s|
  {
    s != [] && var t := ShellTurn(s, p); t.acts || ShellActs(s[t.width..], t.next)
  }

  // ---- what this reading does not follow --------------------------------------------------------

  /** Expansions in braces or brackets, `$((`, `((`, dollar-single-quotes, here-strings, process
      substitutions, a command substitution with a `case` somewhere after it or after the announcement of
      a here-document, one that closes before a here-document announced in it, and one in a here-document. */
  predicate Odd(s: string, p: Place)
    requires s != []
  {
    var dollar := s[0] == '$' && |s| > 1;
    match p.mode
    case Words(_) =>
      || (dollar && (s[1] == '{' || s[1] == '[' || s[1] == '\'' || OddSubstitution(s, p)))
      || "((" <= s || "<<<" <= s || "<(" <= s || ">(" <= s
      || (s[0] == ')' && p.parens == 0 && p.outer != [] && (p.naming.Some? || p.pending != []))
    case InDouble => dollar && (s[1] == '{' || s[1] == '[' || OddSubstitution(s, p))
    case InBody(h, _) => !h.quoted && dollar && (s[1] == '(' || s[1] == '{' || s[1] == '[')
    case _ => false
  }

  predicate OddSubstitution(s: string, p: Place) {
    "$((" <= s || ("$(" <= s && (p.naming.Some? || p.pending != [] || Find(s, "case").Some?))
  }

  /** The shell's reading meets nothing odd. */
  ghost predicate Known(s: string, p: Place)
    decreases |s|
  {
    s != [] ==> !Odd(s, p) && var t := ShellTurn(s, p); t.acts || Known(s[t.width..], t.next)
  }

  // ---- the two readings, character by character -------------------------------------------------

  /** What holds at a character: the open quote, and whether a backquote there is acted on. */
  datatype Mark = Mark(quote: Quote, acts: bool)

  function Flat(m: Mode): Quote {
    match m
    case InSingle => Single
    case InDouble => Double
    case _ => Outside
  }

  function Marks(q: Quote, width: nat, acts: bool): seq<Mark>
    requires 1 <= width
  {
    [Mark(q, acts)] + seq(width - 1, _ => Mark(q, false))
  }

  ghost function ShellMarks(s: string, p: Place): (marks: seq<Mark>)
    ensures marks != [] && marks[0].quote == Flat(p.mode)
    decreases |s|
  {
    if s == [] then [Mark(Flat(p.mode), false)]
    else
      var t := ShellTurn(s, p);
      Marks(Flat(p.mode), t.width, t.acts) + if t.acts then [] else ShellMarks(s[t.width..], t.next)
  }

  /** The substitution scan, up to the first backquote it keeps. */
  ghost function ScanMarks(s: string, q: Quote): (marks: seq<Mark>)
    ensures marks != [] && marks[0].quote == q
    decreases |s|
  {
    if s == [] then [Mark(q, false)]
    else
      var r := SubstStep(s, q);
      var acts := '`' in r.keep;
      Marks(q, r.width, acts) + if acts then [] else ScanMarks(s[r.width..], r.next)
  }

  // ---- the texts on which they agree ------------------------------------------------------------

  predicate Marked(c: char) {
    c == '\'' || c == '"' || c == '`'
  }

  /** What the scans need of one turn: outside quotes no backslash before a quote or a backquote; in
      comments, here-documents and their last lines none of these at all, but for the backquotes that a
      here-document acts on; no command substitution in double quotes; and no backquote in a delimiter. */
  predicate Agrees(s: string, p: Place)
    requires s != []
  {
    var pair := s[0] == '\\' && |s| > 1;
    match p.mode
    case Words(_) => if pair then !Marked(s[1]) else s[0] == '`' ==> p.naming.None?
    case InSingle => true
    case InDouble => !("$(" <= s) && (s[0] == '`' ==> p.naming.None?)
    case InComment => !Marked(s[0])
    case InClosing => !Marked(s[0])
    case InBody(h, opening) =>
      if opening && Closes(s, h) then !Marked(s[0])
      else if h.quoted then !Marked(s[0])
      else s[0] != '\'' && s[0] != '"' && (pair ==> s[1] != '`')
  }

  ghost predicate Plain(s: string, p: Place)
    decreases |s|
  {
    s != [] ==> Agrees(s, p) && var t := ShellTurn(s, p); t.acts || Plain(s[t.width..], t.next)
  }

  /** No substitution was opened in double quotes. */
  predicate Level(p: Place) {
    forall f :: f in p.outer ==> f.mode.Words?
  }

  lemma LevelStays(s: string, p: Place)
    requires s != [] && Level(p) && Agrees(s, p)
    ensures Level(ShellTurn(s, p).next)
  {
    hide Closes;
    assert s[0] == '$' && |s| > 1 && s[1] == '(' ==> "$(" <= s;
  }

  // ---- one turn against the scan's ---------------------------------------------------------------

  lemma OneHead(a: Mark, x: seq<Mark>, b: Mark, y: seq<Mark>)
    ensures [a] + x == [b] + y <==> a == b && x == y
  {
    if [a] + x == [b] + y {
      assert ([a] + x)[0] == a && ([b] + y)[0] == b;
      assert ([a] + x)[1..] == x && ([b] + y)[1..] == y;
    }
  }

  lemma ScanOne(s: string, q: Quote)
    requires s != [] && !(q == Double && s[0] == '\\' && |s| > 1)
    ensures var acts := s[0] == '`' && q != Single;
            ScanMarks(s, q) == [Mark(q, acts)] + if acts then [] else ScanMarks(s[1..], SubstStep(s, q).next)
  {
    assert s[0] == '`' <==> '`' in [s[0]];
    assert Marks(q, 1, true) == [Mark(q, true)] && Marks(q, 1, false) == [Mark(q, false)];
  }

  lemma ScanPair(s: string)
    requires |s| > 1 && s[0] == '\\'
    ensures ScanMarks(s, Double) == [Mark(Double, false)] + ([Mark(Double, false)] + ScanMarks(s[2..], Double))
  {
    hide Marks;
    TwoMarks(Double, ScanMarks(s[2..], Double));
  }

  lemma TwoMarks(q: Quote, rest: seq<Mark>)
    ensures Marks(q, 2, false) + rest == [Mark(q, false)] + ([Mark(q, false)] + rest)
  {
    assert Marks(q, 2, false) == [Mark(q, false), Mark(q, false)];
  }

  lemma ShellOne(s: string, p: Place)
    requires s != [] && ShellTurn(s, p).width == 1
    ensures var t := ShellTurn(s, p);
            ShellMarks(s, p) == [Mark(Flat(p.mode), t.acts)] + if t.acts then [] else ShellMarks(s[1..], t.next)
  {
    hide ShellTurn, Flat;
    assert Marks(Flat(p.mode), 1, ShellTurn(s, p).acts) == [Mark(Flat(p.mode), ShellTurn(s, p).acts)];
  }

  lemma ShellPair(s: string, p: Place)
    requires s != [] && ShellTurn(s, p).width == 2 && !ShellTurn(s, p).acts
    ensures var m := Mark(Flat(p.mode), false);
            ShellMarks(s, p) == [m] + ([m] + ShellMarks(s[2..], ShellTurn(s, p).next))
  {
    hide ShellTurn, Flat, Marks;
    TwoMarks(Flat(p.mode), ShellMarks(s[2..], ShellTurn(s, p).next));
  }

  /** The shell moves by one character or by two, and acts only on one. */
  lemma TurnWidth(s: string, p: Place)
    requires s != []
    ensures var t := ShellTurn(s, p);
            && (t.width == 1 || (t.width == 2 && !t.acts && s[0] != '`' && s[0] != '\'' && s[0] != '"'))
            && (p.mode.InDouble? && s[0] == '\\' && |s| > 1 ==> t.width == 2 && t.next.mode.InDouble?)
  {
    hide Closes;
  }

  /** Where one character is one turn for both. */
  lemma OneAgrees(s: string, p: Place)
    requires s != [] && Level(p) && ShellTurn(s, p).width == 1
    ensures var (t, q) := (ShellTurn(s, p), Flat(p.mode));
            var acts := s[0] == '`' && q != Single;
            Agrees(s, p) <==> acts == t.acts && (acts || SubstStep(s, q).next == Flat(t.next.mode))
  {
    hide Closes;
  }

  /** Where the shell takes two, outside a backslash in double quotes. */
  lemma PairAgrees(s: string, p: Place)
    requires |s| > 1 && ShellTurn(s, p).width == 2 && !(p.mode.InDouble? && s[0] == '\\')
    ensures var (t, q) := (ShellTurn(s, p), Flat(p.mode));
            && q != Single && SubstStep(s, q).next == q
            && (Agrees(s, p) <==> s[1] != '`' && SubstStep(s[1..], q).next == Flat(t.next.mode))
  {
    hide Closes;
    assert s[1..][0] == s[1];
    assert s[0] == '$' && s[1] == '(' <==> "$(" <= s;
  }

  lemma TurnOne(s: string, p: Place)
    requires s != [] && Level(p) && ShellTurn(s, p).width == 1 && !(p.mode.InDouble? && s[0] == '\\' && |s| > 1)
    ensures var (t, q) := (ShellTurn(s, p), Flat(p.mode));
            ScanMarks(s, q) == ShellMarks(s, p)
            <==> Agrees(s, p) && (t.acts || ScanMarks(s[1..], Flat(t.next.mode)) == ShellMarks(s[1..], t.next))
  {
    hide ScanMarks, ShellMarks, ShellTurn, Agrees, SubstStep, Flat;
    FlatDouble(p.mode);
    var (t, q) := (ShellTurn(s, p), Flat(p.mode));
    var acts := s[0] == '`' && q != Single;
    ScanOne(s, q);
    ShellOne(s, p);
    OneAgrees(s, p);
    var x := if acts then [] else ScanMarks(s[1..], SubstStep(s, q).next);
    var y := if t.acts then [] else ShellMarks(s[1..], t.next);
    OneHead(Mark(q, acts), x, Mark(q, t.acts), y);
    assert !t.acts ==> y[0].quote == Flat(t.next.mode);
    assert !acts ==> x[0].quote == SubstStep(s, q).next;
  }

  lemma FlatDouble(m: Mode)
    ensures Flat(m) == Double <==> m.InDouble?
  {
  }

  lemma TurnPair(s: string, p: Place)
    requires |s| > 1 && ShellTurn(s, p).width == 2 && !(p.mode.InDouble? && s[0] == '\\') && !ShellTurn(s, p).acts
    requires s[0] != '`'
    ensures var (t, q) := (ShellTurn(s, p), Flat(p.mode));
            ScanMarks(s, q) == ShellMarks(s, p)
            <==> Agrees(s, p) && ScanMarks(s[2..], Flat(t.next.mode)) == ShellMarks(s[2..], t.next)
  {
    hide ScanMarks, ShellMarks, ShellTurn, Agrees, SubstStep, Flat;
    var (t, q) := (ShellTurn(s, p), Flat(p.mode));
    FlatDouble(p.mode);
    ShellPair(s, p);
    PairAgrees(s, p);
    DoublePair(s, p);
    PairIsTwoScans(s, q);
    var (m, rest, acts) := (Mark(q, false), ShellMarks(s[2..], t.next), s[1] == '`');
    var more := if acts then [] else ScanMarks(s[2..], SubstStep(s[1..], q).next);
    OneHead(m, [Mark(q, acts)] + more, m, [m] + rest);
    OneHead(Mark(q, acts), more, m, rest);
    assert rest[0].quote == Flat(t.next.mode);
    assert !acts ==> more[0].quote == SubstStep(s[1..], q).next;
  }

  lemma PairIsTwoScans(s: string, q: Quote)
    requires |s| > 1 && q != Single && s[0] != '`' && SubstStep(s, q).next == q && (q == Double ==> s[0] != '\\')
    requires q == Double ==> s[1] != '\\'
    ensures var acts := s[1] == '`';
            ScanMarks(s, q) == [Mark(q, false)] + ([Mark(q, acts)] + if acts then [] else ScanMarks(s[2..], SubstStep(s[1..], q).next))
  {
    hide ScanMarks, SubstStep;
    ScanOne(s, q);
    assert s[1..][0] == s[1] && s[1..][1..] == s[2..];
    ScanOne(s[1..], q);
  }

  lemma {:induction false} ReadingsAgreeIff(s: string, p: Place)
    requires Level(p)
    ensures ScanMarks(s, Flat(p.mode)) == ShellMarks(s, p) <==> Plain(s, p)
    decreases |s|
  {
    hide ScanMarks, ShellMarks, ShellTurn, Agrees, SubstStep, Flat, Level;
    if s == [] {
      NothingLeft(p);
    } else {
      TurnWidth(s, p);
      var t := ShellTurn(s, p);
      if t.width == 1 {
        TurnOne(s, p);
      } else if p.mode.InDouble? && s[0] == '\\' {
        EscapePair(s, p);
      } else {
        DoublePair(s, p);
        TurnPair(s, p);
      }
      if Agrees(s, p) && !t.acts {
        LevelStays(s, p);
        ReadingsAgreeIff(s[t.width..], t.next);
      }
    }
  }

  /** On a text that holds nothing odd the scans read as the shell does, character by character up to the
      first backquote acted on, exactly when the text is plain.  On other texts the reading above is not
      the shell's, and nothing is claimed. */
  lemma ScanIsShellIff(text: string)
    requires Known(text, START)
    ensures ScanMarks(text, Outside) == ShellMarks(text, START) <==> Plain(text, START)
  {
    hide ScanMarks, ShellMarks, Plain, Known;
    ReadingsAgreeIff(text, START);
  }

  lemma NothingLeft(p: Place)
    ensures ScanMarks([], Flat(p.mode)) == ShellMarks([], p) == [Mark(Flat(p.mode), false)]
  {
  }

  /** In double quotes a pair is an escape or the opening of a substitution. */
  lemma DoublePair(s: string, p: Place)
    requires s != [] && ShellTurn(s, p).width == 2
    ensures |s| > 1 && (p.mode.InDouble? && s[0] != '\\' ==> s[1] == '(')
  {
    hide Closes;
  }

  lemma EscapePair(s: string, p: Place)
    requires |s| > 1 && p.mode.InDouble? && s[0] == '\\'
    ensures var t := ShellTurn(s, p);
            && Agrees(s, p) && !t.acts
            && (ScanMarks(s, Flat(p.mode)) == ShellMarks(s, p) <==> ScanMarks(s[2..], Flat(t.next.mode)) == ShellMarks(s[2..], t.next))
  {
    hide ScanMarks, ShellMarks;
    ScanPair(s);
    ShellPair(s, p);
    var (m, x, y) := (Mark(Double, false), ScanMarks(s[2..], Double), ShellMarks(s[2..], ShellTurn(s, p).next));
    OneHead(m, [m] + x, m, [m] + y);
    OneHead(m, x, m, y);
  }

  // ---- the rule against backquotes ----------------------------------------------------------------

  ghost predicate Acts(marks: seq<Mark>) {
    exists i :: 0 <= i < |marks| && marks[i].acts
  }

  lemma ActsConcat(x: seq<Mark>, y: seq<Mark>)
    ensures Acts(x + y) <==> Acts(x) || Acts(y)
  {
    if i :| 0 <= i < |x| && x[i].acts {
      assert (x + y)[i].acts;
    }
    if i :| 0 <= i < |y| && y[i].acts {
      assert (x + y)[|x| + i].acts;
    }
  }

  lemma ActsOfTurn(q: Quote, width: nat, acts: bool)
    requires 1 <= width
    ensures Acts(Marks(q, width, acts)) <==> acts
  {
    assert Marks(q, width, acts)[0].acts == acts;
  }

  lemma {:induction false} KeepsWhatActs(s: string, q: Quote)
    ensures '`' in Subst(s, q).kept <==> Acts(ScanMarks(s, q))
    decreases |s|
  {
    hide SubstStep, Marks, Acts;
    if s == [] {
      ActsOfTurn(q, 1, false);
      assert Marks(q, 1, false) == [Mark(q, false)] by { OneMark(q); }
    } else {
      var r := SubstStep(s, q);
      var acts := '`' in r.keep;
      KeepsWhatActs(s[r.width..], r.next);
      ActsOfTurn(q, r.width, acts);
      ActsConcat(Marks(q, r.width, acts), if acts then [] else ScanMarks(s[r.width..], r.next));
    }
  }

  lemma OneMark(q: Quote)
    ensures Marks(q, 1, false) == [Mark(q, false)]
  {
  }

  lemma {:induction false} ActsAsMarked(s: string, p: Place)
    ensures ShellActs(s, p) <==> Acts(ShellMarks(s, p))
    decreases |s|
  {
    hide ShellTurn, Marks, Acts, Flat;
    if s == [] {
      ActsOfTurn(Flat(p.mode), 1, false);
      OneMark(Flat(p.mode));
    } else {
      var t := ShellTurn(s, p);
      ActsAsMarked(s[t.width..], t.next);
      ActsOfTurn(Flat(p.mode), t.width, t.acts);
      ActsConcat(Marks(Flat(p.mode), t.width, t.acts), if t.acts then [] else ShellMarks(s[t.width..], t.next));
    }
  }

  /** On a plain text that the shell's reading here follows to the end, the guard keeps a backquote
      exactly when a shell acts on one. */
  lemma BackquoteRuleIsShells(text: string)
    requires Known(text, START) && Plain(text, START)
    ensures '`' in Subst(text, Outside).kept <==> ShellActs(text, START)
  {
    hide Acts, Known, Plain;
    KeepsWhatActs(text, Outside);
    ActsAsMarked(text, START);
    ScanIsShellIff(text);
  }

  lemma {:induction false} NoDocuments(lines: seq<string>, opener: string -> Option<string>)
    requires forall l :: l in lines ==> opener(l).None?
    ensures Unbodied(lines, opener) == lines
    decreases |lines|
  {
    if lines != [] {
      assert lines[0] in lines && forall l :: l in lines[1..] ==> l in lines;
      NoDocuments(lines[1..], opener);
      assert lines == [lines[0]] + lines[1..];
    }
  }

  /** So on a command none of whose lines opens a quoted here-document, the rule sees what a shell does. */
  lemma CommandRuleIsShells(cmd: string, opener: string -> Option<string>)
    requires forall l :: l in Split(cmd, "\n") ==> opener(l).None?
    requires Known(cmd, START) && Plain(cmd, START)
    ensures '`' in Subst(WithoutHeredocs(cmd, opener), Outside).kept <==> ShellActs(cmd, START)
  {
    hide Known, Plain, Subst, ShellActs, Split, Join, Unbodied;
    NoDocuments(Split(cmd, "\n"), opener);
    JoinSplit(cmd, "\n");
    BackquoteRuleIsShells(cmd);
  }
}
