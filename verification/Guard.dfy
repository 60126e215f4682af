/** The shell-quote scanners and the heredoc stripper behind the command guard. */
module Guard {
  import opened Text

  datatype Quote = Outside | Single | Double

  /** What a scan kept, and the quote state it ended in. */
  datatype Scan = Scan(kept: string, quote: Quote)

  /** One turn of a scanner's loop: what it keeps, the state it moves to, how far it advances. */
  datatype Step = Step(keep: string, next: Quote, width: nat)

  // ---- the two scanners, as functions of the rest of the text and the open quote ----------

  /** `strip_quoted`: only text outside every quote is kept. */
  ghost function StripStep(s: string, q: Quote): (r: Step)
    requires s != []
    ensures 1 <= r.width <= |s|
  {
    match q
    case Outside =>
      if s[0] == '\'' then Step([], Single, 1)
      else if s[0] == '"' then Step([], Double, 1)
      else Step([s[0]], Outside, 1)
    case Single => Step([], if s[0] == '\'' then Outside else Single, 1)
    case Double =>
      if s[0] == '\\' && |s| > 1 then Step([], Double, 2)
      else Step([], if s[0] == '"' then Outside else Double, 1)
  }

  /** `substitutable_spans` after heredocs: text in double quotes is kept as well. */
  ghost function SubstStep(s: string, q: Quote): (r: Step)
    requires s != []
    ensures 1 <= r.width <= |s|
  {
    match q
    case Outside =>
      if s[0] == '\'' then Step([], Single, 1)
      else if s[0] == '"' then Step([], Double, 1)
      else Step([s[0]], Outside, 1)
    case Single => Step([], if s[0] == '\'' then Outside else Single, 1)
    case Double =>
      if s[0] == '\\' && |s| > 1 then Step([], Double, 2)
      else if s[0] == '"' then Step([], Outside, 1)
      else Step([s[0]], Double, 1)
  }

  ghost function Strip(s: string, q: Quote): Scan
    decreases |s|
  {
    if s == [] then Scan([], q)
    else var r := StripStep(s, q); Keep(r.keep, Strip(s[r.width..], r.next))
  }

  ghost function Subst(s: string, q: Quote): Scan
    decreases |s|
  {
    if s == [] then Scan([], q)
    else var r := SubstStep(s, q); Keep(r.keep, Subst(s[r.width..], r.next))
  }

  ghost function Keep(keep: string, r: Scan): Scan {
    r.(kept := keep + r.kept)
  }

  method StripQuoted(cmd: string) returns (out: string)
    ensures out == Strip(cmd, Outside).kept
  {
    hide Strip;
    StripStart(cmd);
    out := [];
    var quote := Outside;
    var i := 0;
    while i < |cmd|
      invariant 0 <= i <= |cmd|
      invariant out + Strip(cmd[i..], quote).kept == Strip(cmd, Outside).kept
    {
      StripAt(cmd, i, quote, out);
      var c := cmd[i];
      match quote {
        case Outside =>
          if c == '\'' {
            quote := Single;
          } else if c == '"' {
            quote := Double;
          } else {
            out := out + [c];
          }
        case Single =>
          if c == '\'' {
            quote := Outside;
          }
        case Double =>
          if c == '\\' && i + 1 < |cmd| {
            i := i + 1;
          } else if c == '"' {
            quote := Outside;
          }
      }
      i := i + 1;
    }
  }

  method ScanSubstitutable(cmd: string) returns (out: string)
    ensures out == Subst(cmd, Outside).kept
  {
    hide Subst;
    SubstStart(cmd);
    out := [];
    var quote := Outside;
    var i := 0;
    while i < |cmd|
      invariant 0 <= i <= |cmd|
      invariant out + Subst(cmd[i..], quote).kept == Subst(cmd, Outside).kept
    {
      SubstAt(cmd, i, quote, out);
      var c := cmd[i];
      match quote {
        case Outside =>
          if c == '\'' {
            quote := Single;
          } else if c == '"' {
            quote := Double;
          } else {
            out := out + [c];
          }
        case Single =>
          if c == '\'' {
            quote := Outside;
          }
        case Double =>
          if c == '\\' && i + 1 < |cmd| {
            i := i + 1;
          } else if c == '"' {
            quote := Outside;
          } else {
            out := out + [c];
          }
      }
      i := i + 1;
    }
  }

  lemma StripStart(s: string)
    ensures Strip(s[0..], Outside) == Strip(s, Outside) && forall q :: Strip(s[|s|..], q).kept == []
  {
    assert s[0..] == s;
  }

  lemma SubstStart(s: string)
    ensures Subst(s[0..], Outside) == Subst(s, Outside) && forall q :: Subst(s[|s|..], q).kept == []
  {
    assert s[0..] == s;
  }

  lemma StripAt(s: string, i: nat, q: Quote, out: string)
    requires i < |s|
    ensures var r := StripStep(s[i..], q);
            out + Strip(s[i..], q).kept == out + r.keep + Strip(s[i + r.width..], r.next).kept
  {
    var r := StripStep(s[i..], q);
    assert s[i..][r.width..] == s[i + r.width..];
    KeepAssoc(out, r.keep, Strip(s[i + r.width..], r.next).kept);
  }

  lemma SubstAt(s: string, i: nat, q: Quote, out: string)
    requires i < |s|
    ensures var r := SubstStep(s[i..], q);
            out + Subst(s[i..], q).kept == out + r.keep + Subst(s[i + r.width..], r.next).kept
  {
    var r := SubstStep(s[i..], q);
    assert s[i..][r.width..] == s[i + r.width..];
    KeepAssoc(out, r.keep, Subst(s[i + r.width..], r.next).kept);
  }

  lemma KeepAssoc<T>(x: seq<T>, y: seq<T>, z: seq<T>)
    ensures x + (y + z) == x + y + z
  {
  }

  // ---- what the scanners agree on ---------------------------------------------------------

  ghost predicate Subsequence<T>(x: seq<T>, y: seq<T>) {
    if x == [] then true
    else if y == [] then false
    else if x[0] == y[0] then Subsequence(x[1..], y[1..])
    else Subsequence(x, y[1..])
  }

  lemma {:induction false} SubsequenceDrop<T>(x: seq<T>, y: seq<T>)
    requires x != [] && Subsequence(x, y)
    ensures Subsequence(x[1..], y)
    decreases |y|
  {
    if x[0] != y[0] {
      SubsequenceDrop(x, y[1..]);
    }
    if |x| > 1 && x[1] == y[0] {
      SubsequenceDrop(x[1..], y[1..]);
    }
  }

  lemma {:induction false} SubsequenceAppend<T>(x: seq<T>, p: seq<T>, y: seq<T>)
    requires Subsequence(x, y)
    ensures Subsequence(x, p + y)
  {
    if p != [] {
      SubsequenceAppend(x, p[1..], y);
      var z := p[1..] + y;
      assert (p + y)[1..] == z;
      if x != [] && x[0] == p[0] {
        SubsequenceDrop(x, z);
      }
    } else {
      assert p + y == y;
    }
  }

  lemma SubsequenceCons<T>(c: T, x: seq<T>, y: seq<T>)
    requires Subsequence(x, y)
    ensures Subsequence([c] + x, [c] + y)
  {
    assert ([c] + y)[1..] == y && ([c] + x)[1..] == x;
  }

  /** The scanners are always in the same quote state, so the stripper keeps a subsequence of what
      the substitution scan keeps. */
  lemma {:induction false} SameQuoteState(s: string, q: Quote)
    ensures Strip(s, q).quote == Subst(s, q).quote
    ensures Subsequence(Strip(s, q).kept, Subst(s, q).kept)
    decreases |s|
  {
    hide Subsequence;
    if s == [] {
      EmptySubsequence<char>([]);
    } else {
      var (r, t) := (StripStep(s, q), SubstStep(s, q));
      assert r.next == t.next && r.width == t.width && (r.keep == [] || r.keep == t.keep == [s[0]]);
      var (x, y) := (Strip(s[r.width..], r.next).kept, Subst(s[r.width..], r.next).kept);
      SameQuoteState(s[r.width..], r.next);
      if r.keep == [] {
        SubsequenceAppend(x, t.keep, y);
        assert [] + x == x;
      } else {
        SubsequenceCons(s[0], x, y);
      }
    }
  }

  lemma EmptySubsequence<T>(y: seq<T>)
    ensures Subsequence([], y)
  {
  }

  /** A backslash that ends the text inside double quotes waits for the character it escapes. */
  ghost predicate Dangling(s: string, q: Quote) {
    |s| == 1 && q == Double && s[0] == '\\'
  }

  lemma StepsAgree(s: string, t: string, q: Quote)
    requires s != [] && !Dangling(s, q)
    ensures StripStep(s + t, q) == StripStep(s, q)
    ensures SubstStep(s + t, q) == SubstStep(s, q)
    ensures forall n :: 0 <= n <= |s| ==> (s + t)[n..] == s[n..] + t
  {
    assert (s + t)[0] == s[0];
  }

  lemma DanglingStaysDouble(s: string, q: Quote)
    requires Dangling(s, q)
    ensures Strip(s, q).quote == Subst(s, q).quote == Double
  {
    assert s[1..] == [];
  }

  /** Scanning splits at any point outside quotes. */
  lemma {:induction false} StripSplits(s: string, t: string, q: Quote)
    requires Strip(s, q).quote == Outside
    ensures Strip(s + t, q).quote == Strip(t, Outside).quote
    ensures Strip(s + t, q).kept == Strip(s, q).kept + Strip(t, Outside).kept
    decreases |s|
  {
    hide StripStep;
    if s == [] {
      assert s + t == t;
    } else if Dangling(s, q) {
      DanglingStaysDouble(s, q);
    } else {
      StepsAgree(s, t, q);
      var r := StripStep(s, q);
      StripSplits(s[r.width..], t, r.next);
      KeepAssoc(r.keep, Strip(s[r.width..], r.next).kept, Strip(t, Outside).kept);
    }
  }

  lemma {:induction false} SubstSplits(s: string, t: string, q: Quote)
    requires Subst(s, q).quote == Outside
    ensures Subst(s + t, q).quote == Subst(t, Outside).quote
    ensures Subst(s + t, q).kept == Subst(s, q).kept + Subst(t, Outside).kept
    decreases |s|
  {
    hide SubstStep;
    if s == [] {
      assert s + t == t;
    } else if Dangling(s, q) {
      DanglingStaysDouble(s, q);
    } else {
      StepsAgree(s, t, q);
      var r := SubstStep(s, q);
      SubstSplits(s[r.width..], t, r.next);
      KeepAssoc(r.keep, Subst(s[r.width..], r.next).kept, Subst(t, Outside).kept);
    }
  }

  lemma Shift(s: string, t: string)
    requires s != []
    ensures (s + t)[0] == s[0] && (s + t)[1..] == s[1..] + t
  {
  }

  lemma {:induction false} SingleSpan(x: string)
    requires '\'' !in x
    ensures Strip(x + "'", Single) == Scan([], Outside) && Subst(x + "'", Single) == Scan([], Outside)
  {
    if x != [] {
      Shift(x, "'");
      SingleSpan(x[1..]);
    } else {
      assert x + "'" == "'";
      assert "'"[1..] == [];
    }
  }

  lemma {:induction false} DoubleSpan(x: string)
    requires '"' !in x && '\\' !in x
    ensures Strip(x + "\"", Double) == Scan([], Outside) && Subst(x + "\"", Double) == Scan(x, Outside)
  {
    if x != [] {
      Shift(x, "\"");
      DoubleSpan(x[1..]);
      assert x == [x[0]] + x[1..];
    } else {
      assert x + "\"" == "\"";
      assert "\""[1..] == [];
    }
  }

  lemma QuotedSpans(x: string)
    ensures '\'' !in x ==> Strip("'" + x + "'", Outside) == Subst("'" + x + "'", Outside) == Scan([], Outside)
    ensures '"' !in x && '\\' !in x ==>
              && Strip("\"" + x + "\"", Outside) == Scan([], Outside)
              && Subst("\"" + x + "\"", Outside) == Scan(x, Outside)
  {
    assert ("'" + x + "'")[1..] == x + "'";
    assert ("\"" + x + "\"")[1..] == x + "\"";
    if '\'' !in x { SingleSpan(x); }
    if '"' !in x && '\\' !in x { DoubleSpan(x); }
  }

  /** Outside quotes a text without quotes is kept whole by both scanners; inside single quotes both drop
      it, and inside double quotes, where it has no backslash, the second alone keeps it. */
  lemma {:induction false} PlainText(x: string)
    requires '\'' !in x && '"' !in x
    ensures Strip(x, Outside) == Subst(x, Outside) == Scan(x, Outside)
    ensures Strip(x, Single) == Subst(x, Single) == Scan([], Single)
    ensures '\\' !in x ==> Strip(x, Double) == Scan([], Double) && Subst(x, Double) == Scan(x, Double)
  {
    hide Strip, Subst;
    if x == [] {
      NothingToScan();
    } else {
      PlainText(x[1..]);
      PlainChar(x);
      assert x == [x[0]] + x[1..];
    }
  }

  lemma NothingToScan()
    ensures forall q :: Strip([], q) == Subst([], q) == Scan([], q)
  {
  }

  lemma PlainChar(x: string)
    requires x != [] && x[0] != '\'' && x[0] != '"'
    ensures Strip(x, Outside) == Keep([x[0]], Strip(x[1..], Outside)) && Subst(x, Outside) == Keep([x[0]], Subst(x[1..], Outside))
    ensures Strip(x, Single) == Keep([], Strip(x[1..], Single)) && Subst(x, Single) == Keep([], Subst(x[1..], Single))
    ensures x[0] != '\\' ==> Strip(x, Double) == Keep([], Strip(x[1..], Double)) && Subst(x, Double) == Keep([x[0]], Subst(x[1..], Double))
  {
  }

  /** In double quotes a backslash and what follows it are dropped, and close nothing. */
  lemma EscapedPair(c: char, rest: string)
    ensures Strip("\\" + [c] + rest, Double) == Strip(rest, Double)
    ensures Subst("\\" + [c] + rest, Double) == Subst(rest, Double)
  {
    var s := "\\" + [c] + rest;
    assert s[2..] == rest;
  }

  /** A single-quoted span placed outside quotes is invisible to both scanners. */
  lemma SingleQuotesAreInert(pre: string, x: string, post: string)
    requires Strip(pre, Outside).quote == Outside && '\'' !in x
    ensures Strip(pre + ("'" + x + "'") + post, Outside) == Strip(pre + post, Outside)
    ensures Subst(pre + ("'" + x + "'") + post, Outside) == Subst(pre + post, Outside)
  {
    hide Strip, Subst;
    var span := "'" + x + "'";
    QuotedSpans(x);
    SameQuoteState(pre, Outside);
    StripSplits(pre, span, Outside);
    StripSplits(pre + span, post, Outside);
    StripSplits(pre, post, Outside);
    SubstSplits(pre, span, Outside);
    SubstSplits(pre + span, post, Outside);
    SubstSplits(pre, post, Outside);
  }

  /** A double-quoted span without escapes is invisible to the stripper, while the substitution
      scan keeps exactly its contents: the same backtick is harmless in one and not in the other. */
  lemma DoubleQuotesExpand(pre: string, x: string, post: string)
    requires Strip(pre, Outside).quote == Outside && '"' !in x && '\\' !in x
    ensures Strip(pre + ("\"" + x + "\"") + post, Outside) == Strip(pre + post, Outside)
    ensures Subst(pre + ("\"" + x + "\"") + post, Outside).kept
         == Subst(pre, Outside).kept + x + Subst(post, Outside).kept
  {
    hide Strip, Subst;
    var span := "\"" + x + "\"";
    QuotedSpans(x);
    SameQuoteState(pre, Outside);
    StripSplits(pre, span, Outside);
    StripSplits(pre + span, post, Outside);
    StripSplits(pre, post, Outside);
    SubstSplits(pre, span, Outside);
    SubstSplits(pre + span, post, Outside);
  }

  // ---- quoted heredocs --------------------------------------------------------------------

  /** How many of `lines` come before the one that closes the heredoc. */
  ghost function BodyLength(lines: seq<string>, delim: string): (n: nat)
    ensures n <= |lines|
  {
    if lines == [] || Trim(lines[0]) == delim then 0 else 1 + BodyLength(lines[1..], delim)
  }

  /** The lines kept: a heredoc whose delimiter is quoted loses its body, not its closing line.
      `opener` is the delimiter a line quotes, if it opens such a heredoc. */
  ghost function Unbodied(lines: seq<string>, opener: string -> Option<string>): seq<string>
    decreases |lines|
  {
    if lines == [] then []
    else
      match opener(lines[0])
      case None => [lines[0]] + Unbodied(lines[1..], opener)
      case Some(delim) =>
        var n := 1 + BodyLength(lines[1..], delim);
        if n == |lines| then [lines[0]]
        else [lines[0], lines[n]] + Unbodied(lines[n + 1..], opener)
  }

  ghost function WithoutHeredocs(cmd: string, opener: string -> Option<string>): string {
    Join(Unbodied(Split(cmd, "\n"), opener), "\n")
  }

  /** Index of the line that closes the heredoc opened just before `from`, or the end. */
  method SkipBody(lines: seq<string>, from: nat, delim: string) returns (i: nat)
    requires from <= |lines|
    ensures from <= i <= |lines| && i - from == BodyLength(lines[from..], delim)
  {
    hide Trim;
    i := from;
    while i < |lines| && Trim(lines[i]) != delim
      invariant from <= i <= |lines|
      invariant i - from + BodyLength(lines[i..], delim) == BodyLength(lines[from..], delim)
    {
      assert lines[i..][1..] == lines[i + 1..];
      i := i + 1;
    }
  }

  lemma UnbodiedStep(lines: seq<string>, i: nat, opener: string -> Option<string>, out: seq<string>)
    requires i < |lines|
    ensures opener(lines[i]).None? ==>
              out + Unbodied(lines[i..], opener) == out + [lines[i]] + Unbodied(lines[i + 1..], opener)
    ensures opener(lines[i]).Some? ==>
              var n := i + 1 + BodyLength(lines[i + 1..], opener(lines[i]).value);
              out + Unbodied(lines[i..], opener) ==
                if n == |lines| then out + [lines[i]]
                else out + [lines[i]] + [lines[n]] + Unbodied(lines[n + 1..], opener)
  {
    hide BodyLength;
    assert lines[i..][1..] == lines[i + 1..];
    if opener(lines[i]).Some? {
      var n := i + 1 + BodyLength(lines[i + 1..], opener(lines[i]).value);
      if n < |lines| {
        assert lines[i..][n - i + 1..] == lines[n + 1..];
      }
    }
  }

  method StripQuotedHeredocs(cmd: string, opener: string -> Option<string>) returns (text: string)
    ensures text == WithoutHeredocs(cmd, opener)
  {
    hide Split, Find, Trim, Join, Unbodied, BodyLength;
    var lines := Split(cmd, "\n");
    var out: seq<string> := [];
    var i := 0;
    assert lines[0..] == lines && lines[|lines|..] == [];
    UnbodiedNothing(opener);
    while i < |lines|
      invariant 0 <= i <= |lines|
      invariant out + Unbodied(lines[i..], opener) == Unbodied(lines, opener)
    {
      UnbodiedStep(lines, i, opener, out);
      out := out + [lines[i]];
      var caps := opener(lines[i]);
      i := i + 1;
      if caps.Some? {
        i := SkipBody(lines, i, caps.value);
        if i < |lines| {
          out := out + [lines[i]];
          i := i + 1;
        }
      }
    }
    assert out == Unbodied(lines, opener);
    text := Join(out, "\n");
  }

  lemma UnbodiedNothing(opener: string -> Option<string>)
    ensures Unbodied([], opener) == []
  {
  }

  lemma {:induction false} BodyGoesOn(body: seq<string>, rest: seq<string>, delim: string)
    requires forall l :: l in body ==> Trim(l) != delim
    ensures BodyLength(body + rest, delim) == |body| + BodyLength(rest, delim)
  {
    hide Trim;
    if body == [] {
      assert body + rest == rest;
    } else {
      assert body[0] in body && forall l :: l in body[1..] ==> l in body;
      BodyGoesOn(body[1..], rest, delim);
      assert (body + rest)[1..] == body[1..] + rest;
    }
  }

  lemma PlainLineStays(l: string, rest: seq<string>, opener: string -> Option<string>)
    requires opener(l) == None
    ensures Unbodied([l] + rest, opener) == [l] + Unbodied(rest, opener)
  {
    hide BodyLength;
    assert ([l] + rest)[1..] == rest;
  }

  lemma {:induction false} PlainLinesStay(pre: seq<string>, rest: seq<string>, opener: string -> Option<string>)
    requires forall l :: l in pre ==> opener(l) == None
    ensures Unbodied(pre + rest, opener) == pre + Unbodied(rest, opener)
    decreases |pre|
  {
    hide Unbodied;
    if pre == [] {
      assert pre + rest == rest;
    } else {
      var tail := pre[1..];
      assert pre[0] in pre && forall l :: l in tail ==> l in pre;
      PlainLinesStay(tail, rest, opener);
      PlainLineStays(pre[0], tail + rest, opener);
      assert pre + rest == [pre[0]] + (tail + rest) && pre == [pre[0]] + tail;
    }
  }

  /** The lines from one that opens a quoted heredoc: the body goes, up to the first line that is the
      delimiter, which stays, and what follows is treated afresh; without such a line everything goes. */
  lemma HeredocLosesBody(pre: seq<string>, first: string, body: seq<string>, post: seq<string>, delim: string, opener: string -> Option<string>)
    requires (forall l :: l in pre ==> opener(l) == None) && opener(first) == Some(delim)
    requires forall l :: l in body ==> Trim(l) != delim
    ensures Unbodied(pre + [first] + body, opener) == pre + [first]
    ensures forall close :: Trim(close) == delim ==>
              Unbodied(pre + [first] + body + [close] + post, opener) == pre + [first, close] + Unbodied(post, opener)
  {
    hide Trim, BodyLength, Unbodied;
    Unclosed(first, body, delim, opener);
    assert pre + [first] + body == pre + ([first] + body);
    PlainLinesStay(pre, [first] + body, opener);
    forall close | Trim(close) == delim
      ensures Unbodied(pre + [first] + body + [close] + post, opener) == pre + [first, close] + Unbodied(post, opener)
    {
      var lines := [first] + body + [close] + post;
      assert pre + [first] + body + [close] + post == pre + lines;
      Closed(first, body, close, post, delim, opener);
      PlainLinesStay(pre, lines, opener);
      assert pre + ([first, close] + Unbodied(post, opener)) == pre + [first, close] + Unbodied(post, opener);
    }
  }

  lemma Unclosed(first: string, body: seq<string>, delim: string, opener: string -> Option<string>)
    requires opener(first) == Some(delim) && forall l :: l in body ==> Trim(l) != delim
    ensures Unbodied([first] + body, opener) == [first]
  {
    hide Trim, BodyLength;
    BodyGoesOn(body, [], delim);
    BodyOfNone(delim);
    assert body + [] == body && ([first] + body)[1..] == body;
  }

  lemma Closed(first: string, body: seq<string>, close: string, post: seq<string>, delim: string, opener: string -> Option<string>)
    requires opener(first) == Some(delim) && (forall l :: l in body ==> Trim(l) != delim) && Trim(close) == delim
    ensures Unbodied([first] + body + [close] + post, opener) == [first, close] + Unbodied(post, opener)
  {
    hide Trim, BodyLength;
    var lines := [first] + body + [close] + post;
    assert lines[1..] == body + ([close] + post);
    BodyGoesOn(body, [close] + post, delim);
    BodyClosed(close, post, delim);
    assert lines[|body| + 2..] == post && lines[|body| + 1] == close;
  }

  lemma BodyOfNone(delim: string)
    ensures BodyLength([], delim) == 0
  {
  }

  lemma BodyClosed(close: string, post: seq<string>, delim: string)
    requires Trim(close) == delim
    ensures BodyLength([close] + post, delim) == 0
  {
    hide Trim;
  }

  /** Stripping quoted heredocs twice is stripping once. */
  lemma {:induction false} UnbodiedTwice(lines: seq<string>, opener: string -> Option<string>)
    ensures Unbodied(Unbodied(lines, opener), opener) == Unbodied(lines, opener)
    ensures lines != [] ==> Unbodied(lines, opener) != []
    ensures forall l :: l in Unbodied(lines, opener) ==> l in lines
    decreases |lines|
  {
    if lines != [] {
      var once := Unbodied(lines, opener);
      match opener(lines[0])
      case None =>
        UnbodiedTwice(lines[1..], opener);
        assert once[1..] == Unbodied(lines[1..], opener);
      case Some(delim) =>
        BodyEnds(lines[1..], delim);
        var n := 1 + BodyLength(lines[1..], delim);
        if n < |lines| {
          UnbodiedTwice(lines[n + 1..], opener);
          var rest := Unbodied(lines[n + 1..], opener);
          assert once[1..] == [lines[n]] + rest && once[2..] == rest;
        }
    }
  }

  lemma {:induction false} BodyEnds(lines: seq<string>, delim: string)
    ensures BodyLength(lines, delim) < |lines| ==> Trim(lines[BodyLength(lines, delim)]) == delim
  {
    hide Trim;
    if lines != [] && Trim(lines[0]) != delim {
      BodyEnds(lines[1..], delim);
    }
  }

  lemma HeredocsTwice(cmd: string, opener: string -> Option<string>)
    ensures WithoutHeredocs(WithoutHeredocs(cmd, opener), opener) == WithoutHeredocs(cmd, opener)
  {
    hide Split, Join, Unbodied, Clean;
    var lines := Split(cmd, "\n");
    var once := Unbodied(lines, opener);
    UnbodiedTwice(lines, opener);
    SplitCharFree(cmd, '\n');
    forall l | l in once ensures Clean(l, "\n") {
      assert l in lines;
      CleanChar(l, '\n');
    }
    SplitJoin(once, "\n");
  }

  // ---- the backtick rule ------------------------------------------------------------------

  method SubstitutableSpans(cmd: string, opener: string -> Option<string>) returns (out: string)
    ensures out == Subst(WithoutHeredocs(cmd, opener), Outside).kept
  {
    var stripped := StripQuotedHeredocs(cmd, opener);
    out := ScanSubstitutable(stripped);
  }

  method IsGuttingPaosCall(cmd: string, opener: string -> Option<string>) returns (refused: bool)
    ensures refused <==> && Find(Strip(cmd, Outside).kept, "paos").Some?
                         && '`' in Subst(WithoutHeredocs(cmd, opener), Outside).kept
  {
    var bare := StripQuoted(cmd);
    if Find(bare, "paos").None? {
      return false;
    }
    var spans := SubstitutableSpans(cmd, opener);
    return '`' in spans;
  }
}
