/** Strings as Rust's standard library cuts and joins them. */
module Text {

  datatype Option<+T> = None | Some(value: T)

  /** The Unicode `White_Space` property, which `trim` and `split_whitespace` test. */
  predicate IsSpace(c: char) {
    var n := c as int;
    || 0x09 <= n <= 0x0D || n == 0x20 || n == 0x85 || n == 0xA0 || n == 0x1680
    || 0x2000 <= n <= 0x200A || n == 0x2028 || n == 0x2029 || n == 0x202F || n == 0x205F || n == 0x3000
  }

  function TrimStart(s: string): string {
    if s != [] && IsSpace(s[0]) then TrimStart(s[1..]) else s
  }

  function TrimEnd(s: string): string {
    if s != [] && IsSpace(s[|s| - 1]) then TrimEnd(s[..|s| - 1]) else s
  }

  function Trim(s: string): string {
    TrimEnd(TrimStart(s))
  }

  /** Neither empty nor padded: what `Trim` leaves alone. */
  predicate Trimmed(s: string) {
    s != [] ==> !IsSpace(s[0]) && !IsSpace(s[|s| - 1])
  }

  lemma {:induction false} TrimStartDrops(s: string)
    ensures TrimStart(s) != [] ==> !IsSpace(TrimStart(s)[0])
    ensures TrimStart(s) != [] ==> s != [] && TrimStart(s)[|TrimStart(s)| - 1] == s[|s| - 1]
  {
    if s != [] && IsSpace(s[0]) {
      TrimStartDrops(s[1..]);
    }
  }

  lemma {:induction false} TrimEndDrops(s: string)
    ensures TrimEnd(s) != [] ==> !IsSpace(TrimEnd(s)[|TrimEnd(s)| - 1]) && TrimEnd(s)[0] == s[0]
  {
    if s != [] && IsSpace(s[|s| - 1]) {
      TrimEndDrops(s[..|s| - 1]);
    }
  }

  lemma TrimIsTrimmed(s: string)
    ensures Trimmed(Trim(s))
    ensures Trimmed(s) ==> Trim(s) == s
  {
    TrimStartDrops(s);
    TrimEndDrops(TrimStart(s));
  }

  // ---- split and join ---------------------------------------------------------------------

  lemma TailSlice(s: string, i: nat, n: nat)
    requires 1 + i + n <= |s|
    ensures s[i + 1..i + 1 + n] == s[1..][i..i + n]
  {
  }

  lemma ConcatSlices(s: string, t: string, n: nat)
    requires n <= |s|
    ensures (s + t)[..n] == s[..n]
    ensures s != [] ==> (s + t)[1..] == s[1..] + t
  {
  }

  /** Where `sep` first occurs in `s`. */
  function Find(s: string, sep: string): (r: Option<nat>)
    ensures r.Some? ==> r.value + |sep| <= |s| && s[r.value..r.value + |sep|] == sep
  {
    if |s| < |sep| then None
    else if s[..|sep|] == sep then Some(0)
    else if s == [] then None
    else
      match Find(s[1..], sep)
      case None => None
      case Some(i) => TailSlice(s, i, |sep|); Some(i + 1)
  }

  /** `str::split`: leftmost occurrences, none overlapping; `n` separators give `n + 1` pieces. */
  function Split(s: string, sep: string): (parts: seq<string>)
    requires sep != []
    ensures parts != []
    decreases |s|
  {
    match Find(s, sep)
    case None => [s]
    case Some(i) => [s[..i]] + Split(s[i + |sep|..], sep)
  }

  function Join(parts: seq<string>, sep: string): string {
    if parts == [] then []
    else if |parts| == 1 then parts[0]
    else parts[0] + sep + Join(parts[1..], sep)
  }

  lemma JoinCons(p: string, rest: seq<string>, sep: string)
    requires rest != []
    ensures Join([p] + rest, sep) == p + sep + Join(rest, sep)
  {
    assert ([p] + rest)[1..] == rest;
  }

  lemma CutAt(s: string, i: nat, sep: string)
    requires i + |sep| <= |s| && s[i..i + |sep|] == sep
    ensures s == s[..i] + sep + s[i + |sep|..]
  {
  }

  /** Cutting and joining with the same separator gives the text back. */
  lemma {:induction false} JoinSplit(s: string, sep: string)
    requires sep != []
    ensures Join(Split(s, sep), sep) == s
    decreases |s|
  {
    hide Find, Join;
    match Find(s, sep)
    case None =>
      JoinOne(s, sep);
    case Some(i) =>
      var rest := s[i + |sep|..];
      JoinSplit(rest, sep);
      CutAt(s, i, sep);
      JoinCons(s[..i], Split(rest, sep), sep);
  }

  lemma JoinOne(s: string, sep: string)
    ensures Join([s], sep) == s
  {
  }

  /** `p` holds no separator, and none arises where `p` meets the separator after it. */
  predicate Clean(p: string, sep: string) {
    Find(p + sep, sep) == Some(|p|)
  }

  lemma {:induction false} FindInPrefix(s: string, t: string, sep: string)
    requires Find(s, sep).Some?
    ensures Find(s + t, sep) == Find(s, sep)
  {
    ConcatSlices(s, t, |sep|);
    if s[..|sep|] != sep {
      FindInPrefix(s[1..], t, sep);
    }
  }

  lemma {:induction false} CleanHasNone(p: string, sep: string)
    requires sep != [] && Clean(p, sep)
    ensures Find(p, sep) == None
  {
    if Find(p, sep).Some? {
      FindInPrefix(p, sep, sep);
    }
  }

  /** A piece without the separator's first character is clean. */
  lemma {:induction false} CleanWithoutFirst(p: string, sep: string)
    requires sep != [] && sep[0] !in p
    ensures Clean(p, sep) && Find(p, sep) == None
  {
    var s := p + sep;
    if p == [] {
      assert s[..|sep|] == sep;
    } else {
      CleanWithoutFirst(p[1..], sep);
      assert p[0] in p && forall c :: c in p[1..] ==> c in p;
      assert s[1..] == p[1..] + sep;
      assert s[..|sep|][0] == p[0];
      assert |p| >= |sep| ==> p[..|sep|][0] == p[0];
    }
  }

  lemma {:induction false} FindAtEnd(p: string, sep: string)
    ensures Find(p + sep, sep).Some?
  {
    var s := p + sep;
    if p == [] {
      assert s[..|sep|] == sep;
    } else {
      FindAtEnd(p[1..], sep);
      assert s[1..] == p[1..] + sep;
    }
  }

  /** Pieces that a cut can tell apart once joined; the last one is followed by nothing. */
  predicate Separable(parts: seq<string>, sep: string) {
    && parts != []
    && Find(parts[|parts| - 1], sep) == None
    && forall i :: 0 <= i < |parts| - 1 ==> Clean(parts[i], sep)
  }

  lemma SeparableTail(parts: seq<string>, sep: string)
    requires |parts| > 1
    ensures Separable(parts, sep) <==> Clean(parts[0], sep) && Separable(parts[1..], sep)
  {
    hide Clean, Find;
    if Clean(parts[0], sep) && Separable(parts[1..], sep) {
      forall i | 0 <= i < |parts| - 1 ensures Clean(parts[i], sep) {
        assert i > 0 ==> parts[i] == parts[1..][i - 1];
      }
    }
  }

  /** The first cut of a joined text falls where the first piece ends exactly when that piece is clean. */
  lemma FirstCut(p: string, rest: string, sep: string)
    requires sep != []
    ensures var pieces := Split(p + sep + rest, sep);
            if Clean(p, sep) then pieces == [p] + Split(rest, sep) else pieces[0] != p
  {
    hide Find;
    var s := p + sep + rest;
    FindAtEnd(p, sep);
    FindInPrefix(p + sep, rest, sep);
    var i := Find(s, sep).value;
    assert Split(s, sep)[0] == s[..i] && |s[..i]| == i;
    assert s[..|p|] == p && s[|p| + |sep|..] == rest;
  }

  /** Joining pieces and cutting again gives the pieces back exactly when they are separable. */
  lemma {:induction false} SplitJoinIff(parts: seq<string>, sep: string)
    requires sep != [] && parts != []
    ensures Split(Join(parts, sep), sep) == parts <==> Separable(parts, sep)
  {
    hide Find, Clean;
    if |parts| > 1 {
      hide Separable, Split;
      FirstCut(parts[0], Join(parts[1..], sep), sep);
      SplitJoinIff(parts[1..], sep);
      SeparableTail(parts, sep);
      assert parts == [parts[0]] + parts[1..];
    } else {
      assert Split(parts[0], sep) == [parts[0]] <==> Find(parts[0], sep) == None;
    }
  }

  lemma SplitJoin(parts: seq<string>, sep: string)
    requires sep != [] && parts != [] && forall p :: p in parts ==> Clean(p, sep)
    ensures Split(Join(parts, sep), sep) == parts
  {
    hide Find, Join;
    var last := parts[|parts| - 1];
    assert last in parts;
    CleanHasNone(last, sep);
    SplitJoinIff(parts, sep);
  }

  /** A one-character separator is clean against exactly the pieces that do not contain it. */
  lemma {:induction false} CleanChar(p: string, c: char)
    ensures Clean(p, [c]) <==> c !in p
  {
    var s := p + [c];
    if p != [] && p[0] != c {
      CleanChar(p[1..], c);
      assert s[1..] == p[1..] + [c];
      assert s[..1] == [p[0]];
    } else if p != [] {
      assert s[..1] == [c];
    } else {
      assert s[..1] == [c];
    }
  }

  /** No piece of a one-character cut contains the separator. */
  lemma {:induction false} SplitCharFree(s: string, c: char)
    ensures forall p :: p in Split(s, [c]) ==> c !in p
    decreases |s|
  {
    FindChar(s, c);
    match Find(s, [c])
    case None =>
    case Some(i) => SplitCharFree(s[i + 1..], c);
  }

  lemma {:induction false} FindChar(s: string, c: char)
    ensures Find(s, [c]) == None <==> c !in s
    ensures Find(s, [c]).Some? ==> c !in s[..Find(s, [c]).value]
  {
    if s != [] {
      assert s[..1] == [s[0]];
      if s[0] != c {
        FindChar(s[1..], c);
        assert s == [s[0]] + s[1..];
        if Find(s, [c]).Some? {
          var i := Find(s[1..], [c]).value;
          assert s[..i + 1] == [s[0]] + s[1..][..i];
        }
      }
    }
  }

  // ---- lengths ----------------------------------------------------------------------------

  function TrimAll(parts: seq<string>): (r: seq<string>)
    ensures |r| == |parts| && forall i :: 0 <= i < |parts| ==> r[i] == Trim(parts[i])
  {
    seq(|parts|, i requires 0 <= i < |parts| => Trim(parts[i]))
  }

  function Sum(parts: seq<string>): nat {
    if parts == [] then 0 else Sum(parts[..|parts| - 1]) + |parts[|parts| - 1]|
  }

  lemma {:induction false} SumCons(p: string, parts: seq<string>)
    ensures Sum([p] + parts) == |p| + Sum(parts)
  {
    if parts == [] {
      assert [p] + parts == [p];
      assert [p][..0] == [];
    } else {
      SumCons(p, parts[..|parts| - 1]);
      assert ([p] + parts)[..|parts|] == [p] + parts[..|parts| - 1];
    }
  }

  lemma {:induction false} JoinLength(parts: seq<string>, sep: string)
    requires parts != []
    ensures |Join(parts, sep)| == Sum(parts) + |sep| * (|parts| - 1)
  {
    hide Sum;
    SumCons(parts[0], parts[1..]);
    assert parts == [parts[0]] + parts[1..];
    if |parts| > 1 {
      JoinLength(parts[1..], sep);
      assert |sep| * (|parts| - 1) == |sep| + |sep| * (|parts| - 2);
    } else {
      SumNone();
    }
  }

  lemma SumNone()
    ensures Sum([]) == 0
  {
  }

  lemma {:induction false} TrimShortens(s: string)
    ensures |Trim(s)| <= |s|
    ensures |Trim(s)| == |s| ==> Trim(s) == s
  {
    TrimStartShortens(s);
    TrimEndShortens(TrimStart(s));
  }

  lemma {:induction false} TrimStartShortens(s: string)
    ensures |TrimStart(s)| <= |s| && (|TrimStart(s)| == |s| ==> TrimStart(s) == s)
  {
    if s != [] && IsSpace(s[0]) {
      TrimStartShortens(s[1..]);
    }
  }

  lemma {:induction false} TrimEndShortens(s: string)
    ensures |TrimEnd(s)| <= |s| && (|TrimEnd(s)| == |s| ==> TrimEnd(s) == s)
  {
    if s != [] && IsSpace(s[|s| - 1]) {
      TrimEndShortens(s[..|s| - 1]);
    }
  }

  lemma SumSnoc(parts: seq<string>, p: string)
    ensures Sum(parts + [p]) == Sum(parts) + |p|
  {
    assert (parts + [p])[..|parts|] == parts;
  }

  lemma {:induction false} SumConcat(x: seq<string>, y: seq<string>)
    ensures Sum(x + y) == Sum(x) + Sum(y)
  {
    if y == [] {
      assert x + y == x;
    } else {
      SumConcat(x, y[..|y| - 1]);
      assert x + y == (x + y[..|y| - 1]) + [y[|y| - 1]];
      SumSnoc(x + y[..|y| - 1], y[|y| - 1]);
    }
  }

  /** Trimming only loses; as many characters means nothing was lost. */
  lemma {:induction false} TrimAllLoses(raw: seq<string>)
    ensures Sum(TrimAll(raw)) <= Sum(raw) && (Sum(TrimAll(raw)) == Sum(raw) ==> TrimAll(raw) == raw)
  {
    hide Trim;
    if raw != [] {
      var (init, last) := (raw[..|raw| - 1], raw[|raw| - 1]);
      TrimAllLoses(init);
      TrimShortens(last);
      assert TrimAll(raw) == TrimAll(init) + [Trim(last)] && raw == init + [last];
      SumSnoc(TrimAll(init), Trim(last));
      SumSnoc(init, last);
    }
  }

  ghost predicate Distinct(xs: seq<string>) {
    forall i, j :: 0 <= i < j < |xs| ==> xs[i] != xs[j]
  }

  /** Distinct texts found among others: no more of them and no longer, and all of them if as many. */
  lemma {:induction false} FoundAmong(names: seq<string>, xs: seq<string>)
    requires Distinct(names) && forall n :: n in names ==> n in xs
    ensures |names| <= |xs| && Sum(names) <= Sum(xs)
    ensures |names| == |xs| ==> Sum(names) == Sum(xs) && forall x :: x in xs ==> x in names
  {
    if names != [] {
      var (init, last) := (names[..|names| - 1], names[|names| - 1]);
      assert names == init + [last] && last in names;
      var j :| 0 <= j < |xs| && xs[j] == last;
      var rest := xs[..j] + xs[j + 1..];
      assert xs == xs[..j] + [last] + xs[j + 1..];
      forall n | n in init ensures n in rest {
        assert n in names && n != last && n in xs;
      }
      FoundAmong(init, rest);
      SumConcat(xs[..j], xs[j + 1..]);
      SumSnoc(xs[..j], last);
      SumConcat(xs[..j] + [last], xs[j + 1..]);
      SumSnoc(init, last);
      forall x | x in xs && |names| == |xs| ensures x in names {
        assert x == last || x in rest;
      }
    }
  }

  // ---- where a separator is -----------------------------------------------------------------

  /** `Find` finds the first occurrence. */
  lemma {:induction false} FindFirst(s: string, sep: string, i: nat)
    requires i + |sep| <= |s| && s[i..i + |sep|] == sep && sep != []
    ensures Find(s, sep).Some? && Find(s, sep).value <= i
  {
    if i > 0 && s[..|sep|] != sep {
      assert s[1..][i - 1..i - 1 + |sep|] == s[i..i + |sep|];
      FindFirst(s[1..], sep, i - 1);
    } else if i == 0 {
      assert s[..|sep|] == s[0..0 + |sep|];
    }
  }

  /** Followed by the separator, a text is cut no later than at its end. */
  lemma FindByEnd(p: string, sep: string)
    requires sep != []
    ensures Find(p + sep, sep).Some? && Find(p + sep, sep).value <= |p|
  {
    hide Find;
    var s := p + sep;
    assert s[|p|..|p| + |sep|] == sep;
    FindFirst(s, sep, |p|);
  }

  lemma {:induction false} JoinEndsWith(parts: seq<string>, sep: string)
    requires parts != [] && parts[|parts| - 1] != []
    ensures Join(parts, sep) != []
    ensures Join(parts, sep)[|Join(parts, sep)| - 1] == parts[|parts| - 1][|parts[|parts| - 1]| - 1]
  {
    if |parts| > 1 {
      JoinEndsWith(parts[1..], sep);
    }
  }
}
