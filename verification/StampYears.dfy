/** Timestamps of years that do not fit four bytes, in the store's and the doctor's parsers, which do
    not look at the separators. */
module StampYears {
  import opened Text
  import opened CivilDate
  import opened Timestamp

  // ---- what a field can hold --------------------------------------------------------------

  lemma TwoDigits(ds: seq<Timestamp.byte>)
    requires |ds| <= 2 && AllDigits(ds)
    ensures 0 <= Value(ds) <= 99 && (|ds| <= 1 ==> Value(ds) <= 9)
  {
    if ds != [] {
      assert ds[..|ds| - 1][..0] == [];
      assert Value([]) == 0;
    }
  }

  lemma FourDigits(ds: seq<Timestamp.byte>)
    requires |ds| <= 4 && AllDigits(ds)
    ensures 0 <= Value(ds) <= 9999 && (|ds| <= 3 ==> Value(ds) <= 999)
  {
    if |ds| > 2 {
      var front := ds[..|ds| - 1];
      if |ds| == 4 {
        TwoDigits(front[..2]);
        assert Value(front) == 10 * Value(front[..2]) + (front[2] as int - 48);
      } else {
        TwoDigits(front);
      }
    } else {
      TwoDigits(ds);
    }
  }

  lemma PairField(s: seq<Timestamp.byte>, a: nat)
    ensures Field(s, a, a + 2).Some? ==> -9 <= Field(s, a, a + 2).value <= 99
  {
    if Field(s, a, a + 2).Some? {
      TwoDigits(Unsigned(s[a..a + 2]));
    }
  }

  lemma YearField(s: seq<Timestamp.byte>)
    ensures Field(s, 0, 4).Some? ==> -999 <= Field(s, 0, 4).value <= 9999
  {
    if Field(s, 0, 4).Some? {
      FourDigits(Unsigned(s[0..4]));
    }
  }

  // ---- how far the days of such fields can be -----------------------------------------------

  const FAR := 10_000_000

  lemma FieldDays(y: int, mo: int, d: int)
    requires -999 <= y <= 9999 && -9 <= mo <= 99 && -9 <= d <= 99
    ensures -FAR <= DaysFromCivil(y, mo, d) <= FAR
    ensures -FAR <= DoctorDays(y, mo, d) <= FAR
  {
    var y2 := if mo <= 2 then y - 1 else y;
    TruncFloors(y2);
    var era := y2 / 400;
    assert -3 <= era <= 24 && 0 <= y2 - era * 400 < 400;
  }

  lemma FarYear(t: Date)
    requires Valid(t) && (t.y <= -100_000 || t.y >= 100_000)
    ensures DaysFromCivil(t.y, t.m, t.d) < -2 * FAR || DaysFromCivil(t.y, t.m, t.d) > 2 * FAR
  {
    hide Leap;
    ClosedForm(t.y, t.m, t.d);
    var y2 := if t.m <= 2 then t.y - 1 else t.y;
    assert 1 <= t.m <= 12 && 1 <= t.d <= 31;
    MarchFar(y2);
  }

  lemma MarchFar(y: int)
    ensures y >= 99_999 ==> March(y) > 3 * FAR
    ensures y <= -99_999 ==> March(y) < -3 * FAR
  {
    assert 4 * (y / 4) <= y < 4 * (y / 4) + 4;
    assert 100 * (y / 100) <= y < 100 * (y / 100) + 100;
    assert 400 * (y / 400) <= y < 400 * (y / 400) + 400;
  }

  // ---- where the digits spill -----------------------------------------------------------------

  lemma {:induction false} ManyDigits(n: nat)
    ensures |Digits(n)| >= 2 ==> n >= 10
    ensures |Digits(n)| >= 6 ==> n >= 100_000
  {
    DigitsWidth(n);
    if n >= 10 {
      DigitsWidth(n / 10);
      if |Digits(n)| >= 6 {
        assert |Digits(n / 10)| >= 5;
      }
    }
  }

  lemma WideYear(y: int)
    ensures |Padded(y, 4)| >= 7 ==> y <= -100_000 || y >= 100_000
    ensures |Padded(y, 4)| > 4 ==> IsDigit(Padded(y, 4)[|Padded(y, 4)| - 1])
  {
    ManyDigits(if y < 0 then -y else y);
  }

  lemma NotANumber(c: Timestamp.byte, d: Timestamp.byte)
    ensures !IsDigit(d) ==> ParseInt([c, d]).None?
    ensures c == CAP_T ==> ParseInt([c, d]).None?
    ensures c == DASH && ParseInt([c, d]).Some? ==> ParseInt([c, d]).value <= 0
  {
    var s := [c, d];
    var ds := Unsigned(s);
    assert ds[|ds| - 1] == d && (c == CAP_T ==> ds[0] == c);
    if c == DASH && IsDigit(d) {
      TwoDigits(ds);
    }
  }

  /** The bytes of a stamp whose year takes five bytes or six. */
  lemma SpilledFields(secs: int)
    ensures var (s, w) := (NowIsoTs(secs), |Padded(CivilFromDays(secs / 86_400).y, 4)|);
            && (w == 5 || w == 6 ==> |s| >= 13 && Field(s, 11, 13).None?)
            && (w == 5 ==> Field(s, 5, 7).None? || Field(s, 5, 7).value <= 0)
            && (w == 6 ==> Field(s, 5, 7).None?)
  {
    hide Padded, ParseInt, CivilFromDays, NowIsoTs;
    var t := CivilFromDays(secs / 86_400);
    DaysRoundTrip(secs / 86_400);
    SplitStamp(secs);
    var (s, p, tail) := (NowIsoTs(secs), Padded(t.y, 4), TimeOfDay(secs % 86_400));
    WideYear(t.y);
    PaddedPair(t.m);
    PaddedPair(t.d);
    var (mm, dd) := (Padded(t.m, 2), Padded(t.d, 2));
    assert s == p + [DASH] + mm + [DASH] + dd + [CAP_T] + tail;
    TailStarts(secs % 86_400);
    if |p| == 5 {
      assert s[5] == DASH && s[11] == CAP_T;
      assert s[5..7] == [s[5], s[6]] && s[11..13] == [s[11], s[12]];
      NotANumber(s[5], s[6]);
      NotANumber(s[11], s[12]);
    } else if |p| == 6 {
      assert s[5] == p[5] && s[6] == DASH && s[12] == CAP_T;
      assert s[5..7] == [s[5], s[6]] && s[11..13] == [s[11], s[12]];
      NotANumber(s[5], s[6]);
      NotANumber(s[11], s[12]);
    }
  }

  lemma TailStarts(rem: int)
    requires 0 <= rem < 86_400
    ensures |TimeOfDay(rem)| >= 2
  {
    hide Padded;
    PaddedPair(rem / 3600);
  }

  /** All three parsers read a written stamp back exactly for the years -999 to 9999. */
  lemma EveryStampRoundTripIff(secs: int)
    ensures ParseIsoEpoch(NowIsoTs(secs)) == Some(secs) <==> -999 <= CivilFromDays(secs / 86_400).y <= 9999
    ensures ParseEpoch(NowIsoTs(secs)) == Some(secs) <==> -999 <= CivilFromDays(secs / 86_400).y <= 9999
    ensures ParseIsoDays(NowIsoTs(secs)) == Some(secs / 86_400) <==> -999 <= CivilFromDays(secs / 86_400).y <= 9999
  {
    hide NowIsoTs, CivilFromDays, DaysFromCivil, DoctorDays, Padded, Field, Leap, ParseIsoEpoch, ParseEpoch, ParseIsoDays;
    var t := CivilFromDays(secs / 86_400);
    StampRoundTripIff(secs);
    if -999 <= t.y <= 9999 {
      StampRoundTrip(secs);
    } else {
      YearWidth(t.y);
      if |Padded(t.y, 4)| >= 7 {
        WideYear(t.y);
        DaysRoundTrip(secs / 86_400);
        FarYear(t);
        NearStamps(NowIsoTs(secs), secs);
      } else {
        SpilledFields(secs);
        UnreadFields(NowIsoTs(secs));
      }
    }
  }

  lemma UnreadFields(s: seq<Timestamp.byte>)
    ensures Field(s, 11, 13).None? ==> ParseEpoch(s).None?
    ensures Field(s, 5, 7).None? || Field(s, 5, 7).value <= 0 ==> ParseIsoDays(s).None?
  {
    hide Field, DaysFromCivil, DoctorDays;
  }

  /** What four-byte years come to is nowhere near. */
  lemma NearStamps(s: seq<Timestamp.byte>, secs: int)
    requires secs / 86_400 < -2 * FAR || secs / 86_400 > 2 * FAR
    ensures ParseEpoch(s) != Some(secs) && ParseIsoDays(s) != Some(secs / 86_400)
  {
    hide Field, DaysFromCivil, DoctorDays;
    YearField(s);
    PairField(s, 5);
    PairField(s, 8);
    PairField(s, 11);
    PairField(s, 14);
    PairField(s, 17);
    var (y, mo, d) := (Field(s, 0, 4), Field(s, 5, 7), Field(s, 8, 10));
    if y.Some? && mo.Some? && d.Some? {
      FieldDays(y.value, mo.value, d.value);
    }
  }
}
