/** Timestamps as the store writes them and as its three parsers read them.

    Text is modelled as its UTF-8 bytes: every parser slices by byte offset, and a slice that cuts
    or contains a multi-byte character fails to parse either way. */
module Timestamp {
  import opened Text
  import opened CivilDate

  newtype byte = x: int | 0 <= x < 256

  const ZERO: byte := 48
  const NINE: byte := 57
  const PLUS: byte := 43
  const DASH: byte := 45
  const COLON: byte := 58
  const SPACE: byte := 32
  const CAP_T: byte := 84
  const CAP_Z: byte := 90

  predicate IsDigit(b: byte) {
    ZERO <= b <= NINE
  }

  predicate IsSpace(b: byte) {
    b == SPACE || 9 <= b <= 13
  }

  // ---- writing ----------------------------------------------------------------------------

  function Digits(n: nat): (r: seq<byte>)
    ensures forall i :: 0 <= i < |r| ==> IsDigit(r[i])
    ensures |r| > 0 && Value(r) == n
  {
    if n < 10 then DigitValue(n); [(48 + n) as byte]
    else AppendDigit(Digits(n / 10), (48 + n % 10) as byte); Digits(n / 10) + [(48 + n % 10) as byte]
  }

  function Zeros(n: nat): (r: seq<byte>)
    ensures |r| == n && forall i :: 0 <= i < n ==> r[i] == ZERO
  {
    seq(n, _ => ZERO)
  }

  /** `{:0width}`: zero padding goes after the sign, and the sign counts towards the width. */
  function Padded(n: int, width: nat): seq<byte> {
    if n < 0 then
      var ds := Digits(-n);
      [DASH] + Zeros(if |ds| + 1 < width then width - 1 - |ds| else 0) + ds
    else
      var ds := Digits(n);
      Zeros(if |ds| < width then width - |ds| else 0) + ds
  }

  function NowIsoTs(secs: int): seq<byte> {
    var t := CivilFromDays(secs / 86_400);
    var rem := secs % 86_400;
    Padded(t.y, 4) + [DASH] + Padded(t.m, 2) + [DASH] + Padded(t.d, 2) + [CAP_T]
    + Padded(rem / 3600, 2) + [COLON] + Padded(rem % 3600 / 60, 2) + [COLON] + Padded(rem % 60, 2) + [CAP_Z]
  }

  // ---- reading ----------------------------------------------------------------------------

  function Value(ds: seq<byte>): int {
    if ds == [] then 0 else 10 * Value(ds[..|ds| - 1]) + (ds[|ds| - 1] as int - 48)
  }

  predicate AllDigits(ds: seq<byte>) {
    forall i :: 0 <= i < |ds| ==> IsDigit(ds[i])
  }

  /** The number without its sign. */
  function Unsigned(s: seq<byte>): seq<byte>
    requires s != []
  {
    if s[0] == PLUS || s[0] == DASH then s[1..] else s
  }

  /** Rust's integer parsing: an optional sign, then at least one digit and nothing else. */
  function ParseInt(s: seq<byte>): Option<int> {
    if s == [] || Unsigned(s) == [] || !AllDigits(Unsigned(s)) then None
    else Some(if s[0] == DASH then -Value(Unsigned(s)) else Value(Unsigned(s)))
  }

  function Field(s: seq<byte>, a: nat, z: nat): Option<int>
    requires a <= z
  {
    if z > |s| then None else ParseInt(s[a..z])
  }

  function TrimStart(s: seq<byte>): seq<byte> {
    if s != [] && IsSpace(s[0]) then TrimStart(s[1..]) else s
  }

  function TrimEnd(s: seq<byte>): seq<byte> {
    if s != [] && IsSpace(s[|s| - 1]) then TrimEnd(s[..|s| - 1]) else s
  }

  /** The fact store's parser: the day only, with month and day range-checked. */
  function ParseIsoDays(s: seq<byte>): Option<int> {
    if |s| < 10 then None
    else
      match (Field(s, 0, 4), Field(s, 5, 7), Field(s, 8, 10))
      case (Some(y), Some(mo), Some(d)) =>
        if 1 <= mo <= 12 && 1 <= d <= 31 then Some(DaysFromCivil(y, mo, d)) else None
      case _ => None
  }

  /** The bus's parser: separators checked, fields not range-checked. */
  function ParseIsoEpoch(text: seq<byte>): Option<int> {
    var s := TrimEnd(TrimStart(text));
    if |s| < 19 || s[4] != DASH || s[7] != DASH || (s[10] != CAP_T && s[10] != SPACE) then None
    else
      match (Field(s, 0, 4), Field(s, 5, 7), Field(s, 8, 10), Field(s, 11, 13), Field(s, 14, 16), Field(s, 17, 19))
      case (Some(y), Some(mo), Some(d), Some(hh), Some(mm), Some(ss)) =>
        Some(DaysFromCivil(y, mo, d) * 86_400 + hh * 3600 + mm * 60 + ss)
      case _ => None
  }

  /** The doctor's parser: neither separators nor ranges checked. */
  function ParseEpoch(s: seq<byte>): Option<int> {
    if |s| < 19 then None
    else
      match (Field(s, 0, 4), Field(s, 5, 7), Field(s, 8, 10), Field(s, 11, 13), Field(s, 14, 16), Field(s, 17, 19))
      case (Some(y), Some(mo), Some(d), Some(h), Some(mi), Some(sec)) =>
        Some(DoctorDays(y, mo, d) * 86_400 + h * 3600 + mi * 60 + sec)
      case _ => None
  }

  // ---- digits and padding -----------------------------------------------------------------

  lemma DigitValue(n: nat)
    requires n < 10
    ensures Value([(48 + n) as byte]) == n
  {
    assert [(48 + n) as byte][..0] == [];
  }

  lemma AppendDigit(ds: seq<byte>, d: byte)
    ensures Value(ds + [d]) == 10 * Value(ds) + (d as int - 48)
  {
    assert (ds + [d])[..|ds|] == ds;
  }

  lemma {:induction false} LeadingZeros(k: nat, ds: seq<byte>)
    ensures Value(Zeros(k) + ds) == Value(ds)
    decreases |ds|, k
  {
    if ds != [] {
      var init := ds[..|ds| - 1];
      assert (Zeros(k) + ds)[..k + |ds| - 1] == Zeros(k) + init;
      LeadingZeros(k, init);
    } else if k > 0 {
      assert (Zeros(k) + ds)[..k - 1] == Zeros(k - 1) + ds;
      LeadingZeros(k - 1, ds);
    } else {
      assert Zeros(0) + ds == [];
    }
  }

  lemma {:induction false} DigitsWidth(n: nat)
    ensures |Digits(n)| == 1 <==> n < 10
    ensures |Digits(n)| <= 2 <==> n < 100
    ensures |Digits(n)| <= 3 <==> n < 1000
    ensures |Digits(n)| <= 4 <==> n < 10_000
  {
    if n >= 10 {
      DigitsWidth(n / 10);
    }
  }

  lemma ParseDigits(k: nat, n: nat)
    ensures ParseInt(Zeros(k) + Digits(n)) == Some(n) && Value(Zeros(k) + Digits(n)) == n
  {
    var ds := Zeros(k) + Digits(n);
    LeadingZeros(k, Digits(n));
    assert IsDigit(ds[0]);
  }

  lemma ParseNegative(rest: seq<byte>, n: int)
    requires rest != [] && Value(rest) == n && forall i :: 0 <= i < |rest| ==> IsDigit(rest[i])
    ensures ParseInt([DASH] + rest) == Some(-n)
  {
    var s := [DASH] + rest;
    assert s[0] == DASH && s[1..] == rest;
  }

  /** A padded number parses back, whatever its width. */
  lemma ParsePadded(n: int, width: nat)
    ensures ParseInt(Padded(n, width)) == Some(n)
  {
    hide ParseInt, Value;
    if n < 0 {
      var size := |Digits(-n)|;
      var k := if size + 1 < width then width - 1 - size else 0;
      ParseDigits(k, -n);
      var rest := Zeros(k) + Digits(-n);
      assert Padded(n, width) == [DASH] + rest;
      ParseNegative(rest, -n);
    } else {
      var size := |Digits(n)|;
      ParseDigits(if size < width then width - size else 0, n);
    }
  }

  lemma PaddedPair(n: int)
    requires 0 <= n < 100
    ensures |Padded(n, 2)| == 2
  {
    DigitsWidth(n);
  }

  /** Four bytes hold exactly the years -999 to 9999; any other year spills a digit into the
      separator's place. */
  lemma YearWidth(y: int)
    ensures |Padded(y, 4)| >= 4
    ensures |Padded(y, 4)| == 4 <==> -999 <= y <= 9999
    ensures |Padded(y, 4)| > 4 ==> IsDigit(Padded(y, 4)[4])
    ensures IsDigit(Padded(y, 4)[0]) || Padded(y, 4)[0] == DASH
  {
    DigitsWidth(if y < 0 then -y else y);
  }

  lemma TrimKeeps(s: seq<byte>)
    requires s != [] && !IsSpace(s[0]) && !IsSpace(s[|s| - 1])
    ensures TrimEnd(TrimStart(s)) == s
  {
  }

  // ---- the round trip ---------------------------------------------------------------------

  ghost function TimeOfDay(rem: int): seq<byte> {
    Padded(rem / 3600, 2) + [COLON] + Padded(rem % 3600 / 60, 2) + [COLON] + Padded(rem % 60, 2) + [CAP_Z]
  }

  lemma TimeFields(s: seq<byte>, head: seq<byte>, rem: int)
    requires |head| == 11 && 0 <= rem < 86_400 && s == head + TimeOfDay(rem)
    ensures |s| == 20
    ensures Field(s, 11, 13) == Some(rem / 3600)
    ensures Field(s, 14, 16) == Some(rem % 3600 / 60)
    ensures Field(s, 17, 19) == Some(rem % 60)
  {
    hide Padded, ParseInt;
    var (h, m, x) := (rem / 3600, rem % 3600 / 60, rem % 60);
    PaddedPair(h); PaddedPair(m); PaddedPair(x);
    ParsePadded(h, 2); ParsePadded(m, 2); ParsePadded(x, 2);
    assert s[11..13] == Padded(h, 2);
    assert s[14..16] == Padded(m, 2);
    assert s[17..19] == Padded(x, 2);
  }

  ghost function DateHead(t: Date): seq<byte> {
    Padded(t.y, 4) + [DASH] + Padded(t.m, 2) + [DASH] + Padded(t.d, 2) + [CAP_T]
  }

  lemma DateFields(s: seq<byte>, t: Date, tail: seq<byte>)
    requires Valid(t) && -999 <= t.y <= 9999 && s == DateHead(t) + tail
    ensures |DateHead(t)| == 11 && |s| == 11 + |tail|
    ensures Field(s, 0, 4) == Some(t.y) && Field(s, 5, 7) == Some(t.m) && Field(s, 8, 10) == Some(t.d)
    ensures s[4] == DASH && s[7] == DASH && s[10] == CAP_T
  {
    hide Padded, ParseInt, Leap;
    YearWidth(t.y); PaddedPair(t.m); PaddedPair(t.d);
    ParsePadded(t.y, 4); ParsePadded(t.m, 2); ParsePadded(t.d, 2);
    assert s[0..4] == Padded(t.y, 4);
    assert s[5..7] == Padded(t.m, 2);
    assert s[8..10] == Padded(t.d, 2);
  }

  lemma SplitStamp(secs: int)
    ensures NowIsoTs(secs) == DateHead(CivilFromDays(secs / 86_400)) + TimeOfDay(secs % 86_400)
  {
    hide Padded, CivilFromDays;
  }

  /** Every timestamp the store writes for a year that fits four bytes is read back to the same
      second by both epoch parsers and to the same day by the day parser. */
  lemma StampRoundTrip(secs: int)
    requires -999 <= CivilFromDays(secs / 86_400).y <= 9999
    ensures ParseIsoEpoch(NowIsoTs(secs)) == Some(secs)
    ensures ParseEpoch(NowIsoTs(secs)) == Some(secs)
    ensures ParseIsoDays(NowIsoTs(secs)) == Some(secs / 86_400)
  {
    hide NowIsoTs, CivilFromDays, DaysFromCivil, DoctorDays, Padded, Field, Leap;
    var t := CivilFromDays(secs / 86_400);
    var s := NowIsoTs(secs);
    DaysRoundTrip(secs / 86_400);
    DoctorAgreesIff(t.y, t.m, t.d);
    SplitStamp(secs);
    DateFields(s, t, TimeOfDay(secs % 86_400));
    TimeFields(s, DateHead(t), secs % 86_400);
    StampEnds(secs);
    TrimKeeps(s);
  }

  lemma StampEnds(secs: int)
    ensures var s := NowIsoTs(secs);
            && s != [] && !IsSpace(s[0]) && !IsSpace(s[|s| - 1])
            && |s| > 4 && (s[4] == DASH <==> -999 <= CivilFromDays(secs / 86_400).y <= 9999)
  {
    hide CivilFromDays, Padded;
    YearWidth(CivilFromDays(secs / 86_400).y);
  }

  /** And exactly those: the bus's parser refuses the stamp of any other year. */
  lemma StampRoundTripIff(secs: int)
    ensures ParseIsoEpoch(NowIsoTs(secs)) == Some(secs) <==> -999 <= CivilFromDays(secs / 86_400).y <= 9999
  {
    hide NowIsoTs, CivilFromDays;
    StampEnds(secs);
    TrimKeeps(NowIsoTs(secs));
    if -999 <= CivilFromDays(secs / 86_400).y <= 9999 {
      StampRoundTrip(secs);
    }
  }
}
