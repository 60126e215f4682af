/** The written timestamp byte by byte, and what each parser makes of fields that no writer checked. */
module StampTexts {
  import opened Text
  import opened CivilDate
  import opened Timestamp

  /** The decimal digit of `n` at the place worth `k`, in ASCII. */
  ghost function DigitAt(n: int, k: int): Timestamp.byte
    requires n >= 0 && k > 0
  {
    (48 + n / k % 10) as Timestamp.byte
  }

  lemma TwoPlaces(n: int)
    requires 0 <= n < 100
    ensures Padded(n, 2) == [DigitAt(n, 10), DigitAt(n, 1)]
  {
    DigitsOfPair(n);
  }

  lemma DigitsOfPair(n: int)
    requires 0 <= n < 100
    ensures Digits(n) == if n < 10 then [DigitAt(n, 1)] else [DigitAt(n, 10), DigitAt(n, 1)]
  {
    if n >= 10 {
      assert Digits(n / 10) == [(48 + n / 10) as Timestamp.byte];
      assert Digits(n) == Digits(n / 10) + [(48 + n % 10) as Timestamp.byte];
    }
  }

  lemma FourPlaces(n: int)
    requires 0 <= n < 10_000
    ensures Padded(n, 4) == [DigitAt(n, 1000), DigitAt(n, 100), DigitAt(n, 10), DigitAt(n, 1)]
  {
    hide Digits;
    if n < 100 {
      DigitsOfPair(n);
    } else {
      Tens(n);
      if n < 1000 {
        DigitsOfPair(n / 10);
      } else {
        Tens(n / 10);
        DigitsOfPair(n / 100);
      }
    }
    DigitPlaces(n);
  }

  lemma Tens(n: int)
    requires n >= 10
    ensures Digits(n) == Digits(n / 10) + [DigitAt(n, 1)]
  {
  }

  lemma DigitPlaces(n: int)
    requires n >= 0
    ensures DigitAt(n / 10, 1) == DigitAt(n, 10) && DigitAt(n / 10, 10) == DigitAt(n, 100)
    ensures DigitAt(n / 100, 1) == DigitAt(n, 100) && DigitAt(n / 100, 10) == DigitAt(n, 1000)
  {
    assert n / 10 / 10 == n / 100 && n / 100 / 10 == n / 1000;
  }

  /** A second of a day of a calendar year from 0 to 9999 is written in twenty bytes,
      `YYYY-MM-DDThh:mm:ssZ`. */
  lemma StampIs(t: Date, h: int, mi: int, sec: int)
    requires Valid(t) && 0 <= t.y <= 9999 && 0 <= h < 24 && 0 <= mi < 60 && 0 <= sec < 60
    ensures NowIsoTs(CountedDays(t) * 86_400 + h * 3600 + mi * 60 + sec)
         == [DigitAt(t.y, 1000), DigitAt(t.y, 100), DigitAt(t.y, 10), DigitAt(t.y, 1), 45,
             DigitAt(t.m, 10), DigitAt(t.m, 1), 45, DigitAt(t.d, 10), DigitAt(t.d, 1), 84,
             DigitAt(h, 10), DigitAt(h, 1), 58, DigitAt(mi, 10), DigitAt(mi, 1), 58, DigitAt(sec, 10), DigitAt(sec, 1), 90]
  {
    hide Padded, CivilFromDays, DaysFromCivil, CountedDays, Leap, DigitAt;
    var days := CountedDays(t);
    var rem := h * 3600 + mi * 60 + sec;
    var secs := days * 86_400 + rem;
    ClosedFormCounts(t);
    DateRoundTrip(t);
    SplitSeconds(days, rem);
    assert rem / 3600 == h && rem % 3600 / 60 == mi && rem % 60 == sec;
    FourPlaces(t.y);
    TwoPlaces(t.m);
    TwoPlaces(t.d);
    TwoPlaces(h);
    TwoPlaces(mi);
    TwoPlaces(sec);
  }

  lemma SplitSeconds(days: int, rem: int)
    requires 0 <= rem < 86_400
    ensures (days * 86_400 + rem) / 86_400 == days && (days * 86_400 + rem) % 86_400 == rem
  {
  }

  /** Six padded fields with any bytes between them. */
  ghost function Fields(y: int, mo: int, d: int, h: int, mi: int, sec: int, a: Timestamp.byte, b: Timestamp.byte, c: Timestamp.byte,
                        e: Timestamp.byte, f: Timestamp.byte, tail: seq<Timestamp.byte>): seq<Timestamp.byte>
  {
    Padded(y, 4) + [a] + Padded(mo, 2) + [b] + Padded(d, 2) + [c] + Padded(h, 2) + [e] + Padded(mi, 2) + [f] + Padded(sec, 2) + tail
  }

  lemma FieldsAre(y: int, mo: int, d: int, h: int, mi: int, sec: int, a: Timestamp.byte, b: Timestamp.byte, c: Timestamp.byte,
                  e: Timestamp.byte, f: Timestamp.byte, tail: seq<Timestamp.byte>)
    requires -999 <= y <= 9999 && 0 <= mo < 100 && 0 <= d < 100 && 0 <= h < 100 && 0 <= mi < 100 && 0 <= sec < 100
    ensures var s := Fields(y, mo, d, h, mi, sec, a, b, c, e, f, tail);
            && |s| == 19 + |tail| && s[4] == a && s[7] == b && s[10] == c && s[0] == Padded(y, 4)[0]
            && Field(s, 0, 4) == Some(y) && Field(s, 5, 7) == Some(mo) && Field(s, 8, 10) == Some(d)
            && Field(s, 11, 13) == Some(h) && Field(s, 14, 16) == Some(mi) && Field(s, 17, 19) == Some(sec)
  {
    hide Padded, ParseInt;
    YearWidth(y);
    PaddedPair(mo); PaddedPair(d); PaddedPair(h); PaddedPair(mi); PaddedPair(sec);
    ParsePadded(y, 4); ParsePadded(mo, 2); ParsePadded(d, 2); ParsePadded(h, 2); ParsePadded(mi, 2); ParsePadded(sec, 2);
    var s := Fields(y, mo, d, h, mi, sec, a, b, c, e, f, tail);
    assert s[0..4] == Padded(y, 4) && s[5..7] == Padded(mo, 2) && s[8..10] == Padded(d, 2);
    assert s[11..13] == Padded(h, 2) && s[14..16] == Padded(mi, 2) && s[17..19] == Padded(sec, 2);
  }

  /** Of fields that nobody checked the store takes the day exactly if month and day are in range; the bus
      takes any, exactly if two dashes and a `T` or a space stand between them; the doctor takes any. */
  lemma ParsersTake(y: int, mo: int, d: int, h: int, mi: int, sec: int, a: Timestamp.byte, b: Timestamp.byte, c: Timestamp.byte,
                    e: Timestamp.byte, f: Timestamp.byte, tail: seq<Timestamp.byte>)
    requires -999 <= y <= 9999 && 0 <= mo < 100 && 0 <= d < 100 && 0 <= h < 100 && 0 <= mi < 100 && 0 <= sec < 100
    requires tail != [] ==> !Timestamp.IsSpace(tail[|tail| - 1])
    ensures var s := Fields(y, mo, d, h, mi, sec, a, b, c, e, f, tail);
            && ParseIsoDays(s) == (if 1 <= mo <= 12 && 1 <= d <= 31 then Some(DaysFromCivil(y, mo, d)) else None)
            && ParseIsoEpoch(s) == (if a == 45 && b == 45 && (c == 84 || c == 32)
                                    then Some(DaysFromCivil(y, mo, d) * 86_400 + h * 3600 + mi * 60 + sec) else None)
            && ParseEpoch(s) == Some(DoctorDays(y, mo, d) * 86_400 + h * 3600 + mi * 60 + sec)
  {
    hide Padded, Field, DaysFromCivil, DoctorDays, Fields;
    FieldsAre(y, mo, d, h, mi, sec, a, b, c, e, f, tail);
    YearWidth(y);
    var s := Fields(y, mo, d, h, mi, sec, a, b, c, e, f, tail);
    FieldsEnd(y, mo, d, h, mi, sec, a, b, c, e, f, tail);
    TrimKeeps(s);
  }

  lemma FieldsEnd(y: int, mo: int, d: int, h: int, mi: int, sec: int, a: Timestamp.byte, b: Timestamp.byte, c: Timestamp.byte,
                  e: Timestamp.byte, f: Timestamp.byte, tail: seq<Timestamp.byte>)
    requires 0 <= sec < 100 && (tail != [] ==> !Timestamp.IsSpace(tail[|tail| - 1]))
    ensures var s := Fields(y, mo, d, h, mi, sec, a, b, c, e, f, tail); s != [] && !Timestamp.IsSpace(s[|s| - 1])
  {
    hide Padded;
    TwoPlaces(sec);
    var s := Fields(y, mo, d, h, mi, sec, a, b, c, e, f, tail);
    if tail == [] {
      assert s[|s| - 1] == DigitAt(sec, 1);
    } else {
      assert s[|s| - 1] == tail[|tail| - 1];
    }
  }
}
